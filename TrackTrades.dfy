/**
  The trade tracker: every proposed ('p') or accepted ('a') trade of the
  league is recorded under its 1-based position in the league's trade list,
  with both team names, the gameweek it took effect and, for each player
  who changed hands, the points that player has scored from that gameweek
  up to the current one.
 */
module TrackTrades {
  import opened PyLib
  import opened Fpl
  import opened Numbering

  /** One player swap of a trade: element_out leaves the offering team,
      element_in joins it. */
  datatype TradeItem = TradeItem(elementIn: int, elementOut: int)

  /** A trade as the provider lists it. */
  datatype Trade = Trade(offeredEntry: int, receivedEntry: int, event: int, state: string,
                         items: seq<TradeItem>)

  /** A player's points since a trade: the total and gameweek -> points. */
  datatype Performance = Performance(playerName: string, totalPoints: int, gameweeks: Dict<int, int>)

  /** A recorded trade. */
  datatype TradeInfo = TradeInfo(teamFrom: string, teamTo: string, effectiveGw: int, state: string,
                                 playersOffered: Dict<int, Performance>,
                                 playersReceived: Dict<int, Performance>)

  /** 'trade_info': trade number -> recorded trade, in list order. */
  type TradeLog = Dict<int, TradeInfo>

  /** Only proposed and accepted trades are recorded. */
  predicate Recorded(t: Trade)
  {
    t.state == "p" || t.state == "a"
  }

  /** The gameweek file exists and lists the player. */
  predicate Scored(index: ScoreIndex, g: int, playerId: int)
  {
    g in index && playerId in index[g]
  }

  // ---------------------------------------------------------------------------
  // track_trade_performance

  /** The gameweeks from..to, each with the player's points; None when a
      gameweek file is missing or does not list the player. */
  function Gameweeks(playerId: int, from: int, to: int, index: ScoreIndex): (r: Option<Dict<int, int>>)
    ensures r.Some? <==> forall g :: from <= g <= to ==> Scored(index, g, playerId)
    ensures r.Some? ==> |r.value| == Max(0, to - from + 1)
    ensures r.Some? ==> forall k :: 0 <= k < |r.value| ==>
      Scored(index, from + k, playerId) && r.value[k] == (from + k, index[from + k][playerId])
    decreases if to < from then 0 else to - from + 1
  {
    if to < from then Some([])
    else match Gameweeks(playerId, from, to - 1, index)
      case None => None
      case Some(weeks) =>
        if Scored(index, to, playerId) then Some(weeks + [(to, index[to][playerId])]) else None
  }

  /** What track_trade_performance returns: None when the player is not in
      the directory (KeyError) or a score is missing. */
  function PerformanceOf(playerId: int, effectiveGw: int, gw: int, directory: Directory, index: ScoreIndex): Option<Performance>
  {
    if playerId !in directory then None
    else if effectiveGw > gw then Some(Performance(FullName(directory[playerId]), 0, []))
    else match Gameweeks(playerId, effectiveGw, gw, index)
      case None => None
      case Some(weeks) => Some(Performance(FullName(directory[playerId]), Sum(Values(weeks)), weeks))
  }

  /** track_trade_performance: the player's points in gameweeks
      effective_gw..gw, one dict entry per gameweek, and their sum. */
  method TrackTradePerformance(playerId: int, effectiveGw: int, gw: int, directory: Directory, index: ScoreIndex)
    returns (r: Option<Performance>)
    ensures r == PerformanceOf(playerId, effectiveGw, gw, directory, index)
  {
    if playerId !in directory {
      return None;
    }
    var name := FullName(directory[playerId]);
    if effectiveGw > gw {
      return Some(Performance(name, 0, []));
    }
    var total := 0;
    var weeks: Dict<int, int> := [];
    var g := effectiveGw;
    while g <= gw
      invariant effectiveGw <= g <= gw + 1
      decreases gw + 1 - g
      invariant Gameweeks(playerId, effectiveGw, g - 1, index) == Some(weeks)
      invariant total == Sum(Values(weeks))
    {
      if !Scored(index, g, playerId) {
        return None;
      }
      var points := index[g][playerId];
      GameweeksExtend(playerId, effectiveGw, g, index, weeks);
      weeks := weeks + [(g, points)];
      total := total + points;
      g := g + 1;
    }
    return Some(Performance(name, total, weeks));
  }

  /** One more scored gameweek appends its entry and adds its points. */
  lemma GameweeksExtend(playerId: int, from: int, g: int, index: ScoreIndex, weeks: Dict<int, int>)
    requires from <= g && Gameweeks(playerId, from, g - 1, index) == Some(weeks) && Scored(index, g, playerId)
    ensures Gameweeks(playerId, from, g, index) == Some(weeks + [(g, index[g][playerId])])
    ensures Sum(Values(weeks + [(g, index[g][playerId])])) == Sum(Values(weeks)) + index[g][playerId]
  {
    var points := index[g][playerId];
    assert Values(weeks + [(g, points)]) == Values(weeks) + [points];
    SumConcat(Values(weeks), [points]);
    SumSingle(points);
  }

  /** A trade that takes effect after gw has no points yet; otherwise the
      gameweeks are exactly effective_gw..gw and the total is their sum. */
  lemma PerformanceWindow(playerId: int, effectiveGw: int, gw: int, directory: Directory, index: ScoreIndex)
    requires PerformanceOf(playerId, effectiveGw, gw, directory, index).Some?
    ensures var p := PerformanceOf(playerId, effectiveGw, gw, directory, index).value;
      && p.playerName == FullName(directory[playerId])
      && (effectiveGw > gw ==> p.totalPoints == 0 && p.gameweeks == [])
      && (effectiveGw <= gw ==>
            && Keys(p.gameweeks) == seq(gw - effectiveGw + 1, k => effectiveGw + k)
            && (forall k :: 0 <= k < |p.gameweeks| ==> p.gameweeks[k].1 == index[effectiveGw + k][playerId])
            && p.totalPoints == Sum(Values(p.gameweeks)))
  {
  }

  /** A missing player is an error, never 0 points. */
  lemma PerformanceFails(playerId: int, effectiveGw: int, gw: int, directory: Directory, index: ScoreIndex)
    ensures PerformanceOf(playerId, effectiveGw, gw, directory, index).None?
        <==> playerId !in directory
             || (effectiveGw <= gw && exists g :: effectiveGw <= g <= gw && !Scored(index, g, playerId))
  {
  }

  // ---------------------------------------------------------------------------
  // collect_trades

  /** The players_offered / players_received dicts after the items loop:
      element_out -> its performance, element_in -> its performance. */
  function ItemsOf(items: seq<TradeItem>, effectiveGw: int, gw: int, directory: Directory, index: ScoreIndex)
    : Option<(Dict<int, Performance>, Dict<int, Performance>)>
  {
    if |items| == 0 then Some(([], []))
    else match ItemsOf(items[..|items| - 1], effectiveGw, gw, directory, index)
      case None => None
      case Some(sides) =>
        var item := items[|items| - 1];
        match PerformanceOf(item.elementOut, effectiveGw, gw, directory, index)
        case None => None
        case Some(out) =>
          match PerformanceOf(item.elementIn, effectiveGw, gw, directory, index)
          case None => None
          case Some(into) => Some((Assign(sides.0, item.elementOut, out), Assign(sides.1, item.elementIn, into)))
  }

  /** The record of one trade; None when a team is not in the league
      (get_team_name exits) or a player's performance fails. */
  function TradeInfoOf(t: Trade, gw: int, entries: Entries, directory: Directory, index: ScoreIndex): Option<TradeInfo>
  {
    if t.offeredEntry !in entries || t.receivedEntry !in entries then None
    else match ItemsOf(t.items, t.event, gw, directory, index)
      case None => None
      case Some(sides) =>
        Some(TradeInfo(entries[t.offeredEntry].entryName, entries[t.receivedEntry].entryName,
                       t.event, t.state, sides.0, sides.1))
  }

  /** TradeInfoOf as the record-maker of the numbering. */
  function TradeMaker(gw: int, entries: Entries, directory: Directory, index: ScoreIndex): Trade -> Option<TradeInfo>
  {
    t => TradeInfoOf(t, gw, entries, directory, index)
  }

  /** What collect_trades returns: trade number n (1-based, counting every
      trade) -> record, for the recorded trades. */
  function CollectOf(trades: seq<Trade>, gw: int, entries: Entries, directory: Directory, index: ScoreIndex)
    : Option<TradeLog>
  {
    Numbered(trades, Recorded, TradeMaker(gw, entries, directory, index))
  }

  /** The inner loop over a trade's items. */
  method CollectItems(items: seq<TradeItem>, effectiveGw: int, gw: int, directory: Directory, index: ScoreIndex)
    returns (r: Option<(Dict<int, Performance>, Dict<int, Performance>)>)
    ensures r == ItemsOf(items, effectiveGw, gw, directory, index)
  {
    var offered: Dict<int, Performance> := [];
    var received: Dict<int, Performance> := [];
    for k := 0 to |items|
      invariant ItemsOf(items[..k], effectiveGw, gw, directory, index) == Some((offered, received))
    {
      var out := TrackTradePerformance(items[k].elementOut, effectiveGw, gw, directory, index);
      if out.None? {
        ItemsStep(items, k, effectiveGw, gw, directory, index);
        ItemsStop(items, k + 1, effectiveGw, gw, directory, index);
        return None;
      }
      var into := TrackTradePerformance(items[k].elementIn, effectiveGw, gw, directory, index);
      if into.None? {
        ItemsStep(items, k, effectiveGw, gw, directory, index);
        ItemsStop(items, k + 1, effectiveGw, gw, directory, index);
        return None;
      }
      ItemsStep(items, k, effectiveGw, gw, directory, index);
      offered := Assign(offered, items[k].elementOut, out.value);
      received := Assign(received, items[k].elementIn, into.value);
    }
    assert items[..|items|] == items;
    return Some((offered, received));
  }

  /** One more item: both players' performances are added, or it fails. */
  lemma ItemsStep(items: seq<TradeItem>, k: nat, effectiveGw: int, gw: int, directory: Directory, index: ScoreIndex)
    requires k < |items| && ItemsOf(items[..k], effectiveGw, gw, directory, index).Some?
    ensures var sides := ItemsOf(items[..k], effectiveGw, gw, directory, index).value;
      var out := PerformanceOf(items[k].elementOut, effectiveGw, gw, directory, index);
      var into := PerformanceOf(items[k].elementIn, effectiveGw, gw, directory, index);
      ItemsOf(items[..k + 1], effectiveGw, gw, directory, index)
        == if out.None? || into.None? then None
           else Some((Assign(sides.0, items[k].elementOut, out.value), Assign(sides.1, items[k].elementIn, into.value)))
  {
    assert items[..k + 1][..k] == items[..k];
  }

  /** Once a prefix of the items fails, the whole list fails. */
  lemma {:induction false} ItemsStop(items: seq<TradeItem>, k: nat, effectiveGw: int, gw: int, directory: Directory, index: ScoreIndex)
    requires k <= |items| && ItemsOf(items[..k], effectiveGw, gw, directory, index).None?
    ensures ItemsOf(items, effectiveGw, gw, directory, index).None?
    decreases |items| - k
  {
    if k < |items| {
      assert items[..k + 1][..k] == items[..k];
      ItemsStop(items, k + 1, effectiveGw, gw, directory, index);
    } else {
      assert items[..k] == items;
    }
  }

  /** collect_trades over the league's trade list. */
  method CollectTrades(trades: seq<Trade>, gw: int, entries: Entries, directory: Directory, index: ScoreIndex)
    returns (r: Option<TradeLog>)
    ensures r == CollectOf(trades, gw, entries, directory, index)
  {
    var log: TradeLog := [];
    var i := 0;
    while i < |trades|
      invariant 0 <= i <= |trades|
      invariant CollectOf(trades[..i], gw, entries, directory, index) == Some(log)
    {
      var trade := trades[i];
      NumberedStep(trades, i, Recorded, TradeMaker(gw, entries, directory, index));
      i := i + 1;
      if Recorded(trade) {
        if trade.offeredEntry !in entries || trade.receivedEntry !in entries {
          NumberedStop(trades, i, Recorded, TradeMaker(gw, entries, directory, index));
          return None;
        }
        var sides := CollectItems(trade.items, trade.event, gw, directory, index);
        if sides.None? {
          NumberedStop(trades, i, Recorded, TradeMaker(gw, entries, directory, index));
          return None;
        }
        var info := TradeInfo(entries[trade.offeredEntry].entryName, entries[trade.receivedEntry].entryName,
                              trade.event, trade.state, sides.value.0, sides.value.1);
        log := log + [(i, info)];
      }
    }
    assert trades[..|trades|] == trades;
    return Some(log);
  }

  // ---------------------------------------------------------------------------
  // properties of the tracker

  /** Every tracked player's entry is that player's performance. */
  ghost predicate Tracked(side: Dict<int, Performance>, effectiveGw: int, gw: int, directory: Directory, index: ScoreIndex)
  {
    forall j :: 0 <= j < |side| ==> PerformanceOf(side[j].0, effectiveGw, gw, directory, index) == Some(side[j].1)
  }

  lemma TrackedAssign(side: Dict<int, Performance>, p: int, perf: Performance, effectiveGw: int, gw: int,
                      directory: Directory, index: ScoreIndex)
    requires Tracked(side, effectiveGw, gw, directory, index)
    requires PerformanceOf(p, effectiveGw, gw, directory, index) == Some(perf)
    ensures Tracked(Assign(side, p, perf), effectiveGw, gw, directory, index)
  {
    forall j | 0 <= j < |Assign(side, p, perf)|
      ensures PerformanceOf(Assign(side, p, perf)[j].0, effectiveGw, gw, directory, index) == Some(Assign(side, p, perf)[j].1)
    {
      AssignEntries(side, p, perf, j);
    }
  }

  /** players_offered holds each element_out once, players_received each
      element_in once, and nothing else; every entry is that player's
      performance since the trade. */
  lemma ItemsKeys(items: seq<TradeItem>, effectiveGw: int, gw: int, directory: Directory, index: ScoreIndex)
    requires ItemsOf(items, effectiveGw, gw, directory, index).Some?
    ensures var (offered, received) := ItemsOf(items, effectiveGw, gw, directory, index).value;
      && DistinctKeys(offered) && DistinctKeys(received)
      && (forall p :: p in Keys(offered) <==> exists k :: 0 <= k < |items| && items[k].elementOut == p)
      && (forall p :: p in Keys(received) <==> exists k :: 0 <= k < |items| && items[k].elementIn == p)
      && Tracked(offered, effectiveGw, gw, directory, index)
      && Tracked(received, effectiveGw, gw, directory, index)
  {
    ItemsTracked(items, effectiveGw, gw, directory, index);
    OfferedKeys(items, effectiveGw, gw, directory, index);
    ReceivedKeys(items, effectiveGw, gw, directory, index);
  }

  lemma {:induction false} ItemsTracked(items: seq<TradeItem>, effectiveGw: int, gw: int, directory: Directory,
                                        index: ScoreIndex)
    requires ItemsOf(items, effectiveGw, gw, directory, index).Some?
    ensures var (offered, received) := ItemsOf(items, effectiveGw, gw, directory, index).value;
      && DistinctKeys(offered) && DistinctKeys(received)
      && Tracked(offered, effectiveGw, gw, directory, index)
      && Tracked(received, effectiveGw, gw, directory, index)
    decreases |items|
  {
    if |items| > 0 {
      var init := items[..|items| - 1];
      var item := items[|items| - 1];
      ItemsTracked(init, effectiveGw, gw, directory, index);
      var (offered, received) := ItemsOf(init, effectiveGw, gw, directory, index).value;
      var out := PerformanceOf(item.elementOut, effectiveGw, gw, directory, index).value;
      var into := PerformanceOf(item.elementIn, effectiveGw, gw, directory, index).value;
      AssignDistinct(offered, item.elementOut, out);
      AssignDistinct(received, item.elementIn, into);
      TrackedAssign(offered, item.elementOut, out, effectiveGw, gw, directory, index);
      TrackedAssign(received, item.elementIn, into, effectiveGw, gw, directory, index);
    }
  }

  /** One more trade item assigns its two players on their sides. */
  lemma ItemsSnoc(items: seq<TradeItem>, effectiveGw: int, gw: int, directory: Directory, index: ScoreIndex)
    requires |items| > 0 && ItemsOf(items, effectiveGw, gw, directory, index).Some?
    ensures var init := items[..|items| - 1];
      var item := items[|items| - 1];
      && ItemsOf(init, effectiveGw, gw, directory, index).Some?
      && PerformanceOf(item.elementOut, effectiveGw, gw, directory, index).Some?
      && PerformanceOf(item.elementIn, effectiveGw, gw, directory, index).Some?
      && ItemsOf(items, effectiveGw, gw, directory, index).value
         == (Assign(ItemsOf(init, effectiveGw, gw, directory, index).value.0, item.elementOut,
                    PerformanceOf(item.elementOut, effectiveGw, gw, directory, index).value),
             Assign(ItemsOf(init, effectiveGw, gw, directory, index).value.1, item.elementIn,
                    PerformanceOf(item.elementIn, effectiveGw, gw, directory, index).value))
  {
  }

  lemma {:induction false} OfferedKeys(items: seq<TradeItem>, effectiveGw: int, gw: int, directory: Directory,
                                       index: ScoreIndex)
    requires ItemsOf(items, effectiveGw, gw, directory, index).Some?
    ensures forall p :: p in Keys(ItemsOf(items, effectiveGw, gw, directory, index).value.0)
                        <==> exists k :: 0 <= k < |items| && items[k].elementOut == p
    decreases |items|
  {
    if |items| > 0 {
      var init := items[..|items| - 1];
      ItemsSnoc(items, effectiveGw, gw, directory, index);
      OfferedKeys(init, effectiveGw, gw, directory, index);
      OfferedKeysStep(items, init, items[|items| - 1], ItemsOf(init, effectiveGw, gw, directory, index).value.0,
                     ItemsOf(items, effectiveGw, gw, directory, index).value.0);
    }
  }

  lemma OfferedKeysStep(items: seq<TradeItem>, init: seq<TradeItem>, item: TradeItem, prev: Dict<int, Performance>,
                       cur: Dict<int, Performance>)
    requires |items| > 0 && init == items[..|items| - 1] && item == items[|items| - 1]
    requires forall p :: p in Keys(prev) <==> exists k :: 0 <= k < |init| && init[k].elementOut == p
    requires Keys(cur) == if item.elementOut in Keys(prev) then Keys(prev) else Keys(prev) + [item.elementOut]
    ensures forall p :: p in Keys(cur) <==> exists k :: 0 <= k < |items| && items[k].elementOut == p
  {
    forall p
      ensures p in Keys(cur) <==> exists k :: 0 <= k < |items| && items[k].elementOut == p
    {
      if p == item.elementOut {
        assert items[|items| - 1].elementOut == p;
      } else if p in Keys(prev) {
        var k :| 0 <= k < |init| && init[k].elementOut == p;
        assert items[k].elementOut == p;
      } else {
        forall k | 0 <= k < |items|
          ensures items[k].elementOut != p
        {
          if k < |init| {
            assert init[k] == items[k];
          }
        }
      }
    }
  }

  lemma {:induction false} ReceivedKeys(items: seq<TradeItem>, effectiveGw: int, gw: int, directory: Directory,
                                       index: ScoreIndex)
    requires ItemsOf(items, effectiveGw, gw, directory, index).Some?
    ensures forall p :: p in Keys(ItemsOf(items, effectiveGw, gw, directory, index).value.1)
                        <==> exists k :: 0 <= k < |items| && items[k].elementIn == p
    decreases |items|
  {
    if |items| > 0 {
      var init := items[..|items| - 1];
      ItemsSnoc(items, effectiveGw, gw, directory, index);
      ReceivedKeys(init, effectiveGw, gw, directory, index);
      ReceivedKeysStep(items, init, items[|items| - 1], ItemsOf(init, effectiveGw, gw, directory, index).value.1,
                     ItemsOf(items, effectiveGw, gw, directory, index).value.1);
    }
  }

  lemma ReceivedKeysStep(items: seq<TradeItem>, init: seq<TradeItem>, item: TradeItem, prev: Dict<int, Performance>,
                       cur: Dict<int, Performance>)
    requires |items| > 0 && init == items[..|items| - 1] && item == items[|items| - 1]
    requires forall p :: p in Keys(prev) <==> exists k :: 0 <= k < |init| && init[k].elementIn == p
    requires Keys(cur) == if item.elementIn in Keys(prev) then Keys(prev) else Keys(prev) + [item.elementIn]
    ensures forall p :: p in Keys(cur) <==> exists k :: 0 <= k < |items| && items[k].elementIn == p
  {
    forall p
      ensures p in Keys(cur) <==> exists k :: 0 <= k < |items| && items[k].elementIn == p
    {
      if p == item.elementIn {
        assert items[|items| - 1].elementIn == p;
      } else if p in Keys(prev) {
        var k :| 0 <= k < |init| && init[k].elementIn == p;
        assert items[k].elementIn == p;
      } else {
        forall k | 0 <= k < |items|
          ensures items[k].elementIn != p
        {
          if k < |init| {
            assert init[k] == items[k];
          }
        }
      }
    }
  }

  /** A recorded trade names both teams, its gameweek and state, and lists
      the players who moved each way with their performance since. */
  lemma TradeRecorded(t: Trade, gw: int, entries: Entries, directory: Directory, index: ScoreIndex)
    requires TradeInfoOf(t, gw, entries, directory, index).Some?
    ensures var info := TradeInfoOf(t, gw, entries, directory, index).value;
      && info.teamFrom == entries[t.offeredEntry].entryName
      && info.teamTo == entries[t.receivedEntry].entryName
      && info.effectiveGw == t.event && info.state == t.state
      && DistinctKeys(info.playersOffered) && DistinctKeys(info.playersReceived)
      && (forall p :: p in Keys(info.playersOffered) <==> exists k :: 0 <= k < |t.items| && t.items[k].elementOut == p)
      && (forall p :: p in Keys(info.playersReceived) <==> exists k :: 0 <= k < |t.items| && t.items[k].elementIn == p)
      && Tracked(info.playersOffered, t.event, gw, directory, index)
      && Tracked(info.playersReceived, t.event, gw, directory, index)
  {
    ItemsKeys(t.items, t.event, gw, directory, index);
  }

  /** Trade numbers count every trade from 1, rejected ones included; only
      proposed and accepted trades appear, in increasing order. */
  lemma CollectNumbering(trades: seq<Trade>, gw: int, entries: Entries, directory: Directory, index: ScoreIndex)
    requires CollectOf(trades, gw, entries, directory, index).Some?
    ensures var log := CollectOf(trades, gw, entries, directory, index).value;
      && (forall n :: n in Keys(log) <==> 1 <= n <= |trades| && Recorded(trades[n - 1]))
      && (forall j, k :: 0 <= j < k < |log| ==> log[j].0 < log[k].0)
      && (forall j :: 0 <= j < |log| ==> 1 <= log[j].0 <= |trades|)
  {
    NumberedKeys(trades, Recorded, TradeMaker(gw, entries, directory, index));
  }

  /** The entry under trade number n is the record of the n-th trade. */
  lemma CollectEntries(trades: seq<Trade>, gw: int, entries: Entries, directory: Directory, index: ScoreIndex)
    requires CollectOf(trades, gw, entries, directory, index).Some?
    ensures var log := CollectOf(trades, gw, entries, directory, index).value;
      forall j :: 0 <= j < |log| ==>
        1 <= log[j].0 <= |trades| && TradeInfoOf(trades[log[j].0 - 1], gw, entries, directory, index) == Some(log[j].1)
  {
    NumberedEntries(trades, Recorded, TradeMaker(gw, entries, directory, index));
  }

  /** The tracker fails exactly when some recorded trade cannot be recorded. */
  lemma CollectFails(trades: seq<Trade>, gw: int, entries: Entries, directory: Directory, index: ScoreIndex)
    ensures CollectOf(trades, gw, entries, directory, index).None?
        <==> exists k :: 0 <= k < |trades| && Recorded(trades[k]) && TradeInfoOf(trades[k], gw, entries, directory, index).None?
  {
    NumberedFails(trades, Recorded, TradeMaker(gw, entries, directory, index));
  }

  // ---------------------------------------------------------------------------
  // get_most_recent_trade_id

  function MaxOf(s: seq<int>): (r: int)
    requires |s| > 0
    ensures r in s && forall k :: 0 <= k < |s| ==> s[k] <= r
  {
    if |s| == 1 then s[0] else Max(MaxOf(s[..|s| - 1]), s[|s| - 1])
  }

  /** The trade log's keys as saved to JSON: str(trade number). */
  function SavedKeys(log: TradeLog): (keys: seq<string>)
    ensures |keys| == |log|
  {
    seq(|log|, k requires 0 <= k < |log| => IntStr(log[k].0))
  }

  /** get_most_recent_trade_id over the saved keys: 0 for no trades, else the
      largest int(key). */
  function MostRecentTradeId(keys: seq<string>): int
  {
    if |keys| == 0 then 0
    else MaxOf(seq(|keys|, k requires 0 <= k < |keys| => ParseInt(keys[k])))
  }

  /** int(str(n)) undoes the JSON key conversion: the id read back is the
      largest trade number of the log, 0 for an empty log. */
  lemma SavedIdsRoundTrip(log: TradeLog)
    ensures MostRecentTradeId(SavedKeys(log)) == if |log| == 0 then 0 else MaxOf(Keys(log))
  {
    var keys := SavedKeys(log);
    var ids := seq(|keys|, k requires 0 <= k < |keys| => ParseInt(keys[k]));
    forall k | 0 <= k < |log|
      ensures ids[k] == Keys(log)[k]
    {
      IntStrRoundTrip(log[k].0);
    }
    assert ids == Keys(log);
  }

  /** Read back from the saved tracker, the most recent id is 0 when no
      trade was recorded, and otherwise the number of the last recorded
      trade: a recorded trade with no recorded trade after it. */
  lemma MostRecentIsLast(trades: seq<Trade>, gw: int, entries: Entries, directory: Directory, index: ScoreIndex)
    requires CollectOf(trades, gw, entries, directory, index).Some?
    ensures var n := MostRecentTradeId(SavedKeys(CollectOf(trades, gw, entries, directory, index).value));
      && (n == 0 <==> forall k :: 0 <= k < |trades| ==> !Recorded(trades[k]))
      && (n != 0 ==> 1 <= n <= |trades| && Recorded(trades[n - 1])
                     && forall k :: n <= k < |trades| ==> !Recorded(trades[k]))
  {
    CollectNumbering(trades, gw, entries, directory, index);
    LatestId(CollectOf(trades, gw, entries, directory, index).value, trades);
  }

  /** The same for any log numbered by trade position with increasing keys. */
  lemma LatestId(log: TradeLog, trades: seq<Trade>)
    requires forall n :: n in Keys(log) <==> 1 <= n <= |trades| && Recorded(trades[n - 1])
    requires forall j, k :: 0 <= j < k < |log| ==> log[j].0 < log[k].0
    ensures var n := MostRecentTradeId(SavedKeys(log));
      && (n == 0 <==> forall k :: 0 <= k < |trades| ==> !Recorded(trades[k]))
      && (n != 0 ==> 1 <= n <= |trades| && Recorded(trades[n - 1])
                     && forall k :: n <= k < |trades| ==> !Recorded(trades[k]))
  {
    SavedIdsRoundTrip(log);
    if |log| == 0 {
      forall k | 0 <= k < |trades|
        ensures !Recorded(trades[k])
      {
        assert k + 1 !in Keys(log);
      }
    } else {
      var last := log[|log| - 1].0;
      assert Keys(log)[|log| - 1] == last;
      assert MaxOf(Keys(log)) == last;
      LastNumber(log, trades);
      assert 0 <= last - 1 < |trades| && Recorded(trades[last - 1]);
    }
  }

  /** In a log numbered by trade position with increasing keys, the last key
      is a recorded trade with none recorded after it. */
  lemma LastNumber(log: TradeLog, trades: seq<Trade>)
    requires |log| > 0
    requires forall n :: n in Keys(log) <==> 1 <= n <= |trades| && Recorded(trades[n - 1])
    requires forall j, k :: 0 <= j < k < |log| ==> log[j].0 < log[k].0
    ensures 1 <= log[|log| - 1].0 <= |trades| && Recorded(trades[log[|log| - 1].0 - 1])
    ensures forall k :: log[|log| - 1].0 <= k < |trades| ==> !Recorded(trades[k])
  {
    var last := log[|log| - 1].0;
    assert last in Keys(log);
    forall k | last <= k < |trades|
      ensures !Recorded(trades[k])
    {
      forall j | 0 <= j < |log|
        ensures log[j].0 != k + 1
      {
        if j < |log| - 1 {
          assert log[j].0 < last;
        }
      }
      assert k + 1 !in Keys(log);
    }
  }
}
