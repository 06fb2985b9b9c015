/**
  The trade summary of a gameweek, read from the trade tracker: how many
  trades took effect this gameweek, and every proposed trade effective up
  to it with each side's gain (the points of the players it received minus
  those of the players it gave away), ranked by margin with the top ten
  shown in the message. The side with the larger gain is the winner and
  gets the crown.
 */
module TradeSummary {
  import opened PyLib
  import opened Sorting
  import opened TrackTrades

  /** The points of all players on one side of a trade. */
  function SideTotal(side: Dict<int, Performance>): int
  {
    Sum(seq(|side|, k requires 0 <= k < |side| => side[k].1.totalPoints))
  }

  /** calculate_trade_gains: (team_from_gain, team_to_gain). One team's gain
      is the other's loss. */
  function TradeGains(trade: TradeInfo): (gains: (int, int))
    ensures gains.1 == -gains.0
  {
    var offeredTotal := SideTotal(trade.playersOffered);
    var receivedTotal := SideTotal(trade.playersReceived);
    (receivedTotal - offeredTotal, offeredTotal - receivedTotal)
  }

  /** get_trade_winner: the name of the side with the larger gain; None on a
      tie. */
  function TradeWinner(fromGain: int, toGain: int, teamFrom: string, teamTo: string): Option<string>
  {
    if fromGain > toGain then Some(teamFrom)
    else if toGain > fromGain then Some(teamTo)
    else None
  }

  /** get_winner_message. */
  function WinnerMessage(trade: TradeInfo, fromGain: int, toGain: int): string
  {
    if fromGain > toGain then "**" + trade.teamFrom + "** is winning the trade by `" + IntStr(fromGain) + "` points"
    else if toGain > fromGain then "**" + trade.teamTo + "** is winning the trade by `" + IntStr(toGain) + "` points"
    else "The trade is tied at `0` points"
  }

  /** The winner is team_from when its gain is larger, team_to when the
      other gain is, and there is none exactly on a tie. */
  lemma WinnerCases(fromGain: int, toGain: int, teamFrom: string, teamTo: string)
    ensures TradeWinner(fromGain, toGain, teamFrom, teamTo).None? <==> fromGain == toGain
    ensures fromGain > toGain ==> TradeWinner(fromGain, toGain, teamFrom, teamTo) == Some(teamFrom)
    ensures toGain > fromGain ==> TradeWinner(fromGain, toGain, teamFrom, teamTo) == Some(teamTo)
  {
  }

  /** With a trade's own gains, the side that received more points than it
      gave away wins, and a tie means both gains are 0. */
  lemma WinnerReceivedMore(trade: TradeInfo)
    ensures var (f, t) := TradeGains(trade);
      && (SideTotal(trade.playersReceived) > SideTotal(trade.playersOffered) ==>
            TradeWinner(f, t, trade.teamFrom, trade.teamTo) == Some(trade.teamFrom))
      && (SideTotal(trade.playersReceived) < SideTotal(trade.playersOffered) ==>
            TradeWinner(f, t, trade.teamFrom, trade.teamTo) == Some(trade.teamTo))
      && (SideTotal(trade.playersReceived) == SideTotal(trade.playersOffered) <==>
            TradeWinner(f, t, trade.teamFrom, trade.teamTo).None?)
      && (TradeWinner(f, t, trade.teamFrom, trade.teamTo).None? ==> f == 0 && t == 0)
  {
  }

  /** The message names the winner and quotes the winner's gain, which is
      the larger of the two; on a tie it is the fixed text. */
  lemma MessageNamesWinner(trade: TradeInfo, fromGain: int, toGain: int)
    ensures var w := TradeWinner(fromGain, toGain, trade.teamFrom, trade.teamTo);
      && (w.Some? ==> WinnerMessage(trade, fromGain, toGain)
                        == "**" + w.value + "** is winning the trade by `" + IntStr(Max(fromGain, toGain)) + "` points")
      && (w.None? ==> WinnerMessage(trade, fromGain, toGain) == "The trade is tied at `0` points")
  {
  }

  // ---------------------------------------------------------------------------
  // crowns

  /** write_trade_summary_lines: a crown after team_from when the winner's
      name is team_from's, else after team_to when it is team_to's. */
  function SummaryCrowns(trade: TradeInfo, fromGain: int, toGain: int): (bool, bool)
  {
    var winner := TradeWinner(fromGain, toGain, trade.teamFrom, trade.teamTo);
    if winner == Some(trade.teamFrom) then (true, false)
    else if winner == Some(trade.teamTo) then (false, true)
    else (false, false)
  }

  /** write_full_trade_details: each side is crowned when the winner's name
      is its name. */
  function DetailCrowns(trade: TradeInfo, fromGain: int, toGain: int): (bool, bool)
  {
    var winner := TradeWinner(fromGain, toGain, trade.teamFrom, trade.teamTo);
    (winner == Some(trade.teamFrom), winner == Some(trade.teamTo))
  }

  /** Between two differently named teams the crown goes to exactly the
      side with the larger gain, and to neither on a tie. */
  lemma CrownsOnWinner(trade: TradeInfo, fromGain: int, toGain: int)
    requires trade.teamFrom != trade.teamTo
    ensures SummaryCrowns(trade, fromGain, toGain) == (fromGain > toGain, toGain > fromGain)
    ensures DetailCrowns(trade, fromGain, toGain) == (fromGain > toGain, toGain > fromGain)
  {
  }

  /** The crowns follow names, not sides: between two teams of the same name
      the summary always crowns team_from and the details crown both. */
  lemma CrownsSameName(trade: TradeInfo, fromGain: int, toGain: int)
    requires trade.teamFrom == trade.teamTo && fromGain != toGain
    ensures SummaryCrowns(trade, fromGain, toGain) == (true, false)
    ensures DetailCrowns(trade, fromGain, toGain) == (true, true)
  {
  }

  // ---------------------------------------------------------------------------
  // generate_trade_summary: which trades are counted, ranked and shown

  /** The trades that took effect this gameweek (proposed trades only). */
  function ThisWeek(trades: seq<TradeInfo>, gameweek: int): (r: seq<TradeInfo>)
    ensures |r| <= |trades|
    ensures forall t :: t in r <==> t in trades && t.effectiveGw == gameweek && t.state == "p"
  {
    if |trades| == 0 then []
    else
      var t := trades[|trades| - 1];
      ThisWeek(trades[..|trades| - 1], gameweek) + (if t.effectiveGw == gameweek && t.state == "p" then [t] else [])
  }

  /** A trade with its two gains. */
  datatype TradeGain = TradeGain(trade: TradeInfo, fromGain: int, toGain: int)

  function WithGains(trade: TradeInfo): TradeGain
  {
    TradeGain(trade, TradeGains(trade).0, TradeGains(trade).1)
  }

  /** Proposed trades effective up to the gameweek, with their gains, in
      tracker order. */
  function UpTo(trades: seq<TradeInfo>, gameweek: int): (r: seq<TradeGain>)
    ensures |r| <= |trades|
    ensures forall g :: g in r <==> g.trade in trades && g.trade.effectiveGw <= gameweek && g.trade.state == "p"
                                    && g == WithGains(g.trade)
  {
    if |trades| == 0 then []
    else
      var t := trades[|trades| - 1];
      UpTo(trades[..|trades| - 1], gameweek) + (if t.effectiveGw <= gameweek && t.state == "p" then [WithGains(t)] else [])
  }

  /** The sort key: abs(team_from_gain). */
  function Margin(g: TradeGain): int
  {
    Abs(g.fromGain)
  }

  /** How many trades the message lists. */
  const ShownLimit: nat := 10

  /** The loop that collects the trades up to the gameweek with their gains. */
  method CollectGains(trades: seq<TradeInfo>, gameweek: int) returns (list: seq<TradeGain>)
    ensures list == UpTo(trades, gameweek)
  {
    list := [];
    for k := 0 to |trades|
      invariant list == UpTo(trades[..k], gameweek)
    {
      assert trades[..k + 1][..k] == trades[..k];
      var trade := trades[k];
      if trade.effectiveGw <= gameweek && trade.state == "p" {
        var gains := TradeGains(trade);
        list := list + [TradeGain(trade, gains.0, gains.1)];
      }
    }
    assert trades[..|trades|] == trades;
  }

  /** generate_trade_summary's selection: the trades of this gameweek, all
      trades up to it ranked by margin (largest first, ties in tracker
      order), and the first ten of those for the message. */
  method GenerateTradeSummary(log: TradeLog, gameweek: int)
    returns (thisWeek: seq<TradeInfo>, ranked: seq<TradeGain>, shown: seq<TradeGain>)
    ensures thisWeek == ThisWeek(Values(log), gameweek)
    ensures multiset(ranked) == multiset(UpTo(Values(log), gameweek))
    ensures NonIncreasing(ranked, Margin)
    ensures forall v :: Matching(ranked, Margin, v) == Matching(UpTo(Values(log), gameweek), Margin, v)
    ensures |shown| == Min(ShownLimit, |ranked|) && shown == ranked[..|shown|]
  {
    var trades := Values(log);
    thisWeek := ThisWeek(trades, gameweek);
    var list := CollectGains(trades, gameweek);
    ranked := SortBy(list, Margin);
    SortByOrdered(list, Margin);
    forall v
      ensures Matching(ranked, Margin, v) == Matching(list, Margin, v)
    {
      SortByStable(list, Margin, v);
    }
    if |ranked| <= ShownLimit {
      shown := ranked;
    } else {
      shown := ranked[..ShownLimit];
    }
  }

  /** Every trade shown has at least the margin of every trade left out. */
  lemma ShownBeatHidden(ranked: seq<TradeGain>, shown: seq<TradeGain>, i: nat, j: nat)
    requires NonIncreasing(ranked, Margin)
    requires |shown| <= |ranked| && shown == ranked[..|shown|]
    requires i < |shown| <= j < |ranked|
    ensures Margin(shown[i]) >= Margin(ranked[j])
  {
    assert shown[i] == ranked[i];
  }
}
