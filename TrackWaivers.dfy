/**
  The waiver tracker: every accepted ('a') waiver or free-agent claim of
  the league is recorded under its 1-based position in the league's
  transaction list, with the team, the gameweek it took effect, the
  gameweek-by-gameweek points of the player brought in and of the player
  dropped from gameweek 1 to the current one, and how the two compared in
  the effective gameweek.
 */
module TrackWaivers {
  import opened PyLib
  import opened Fpl
  import opened Numbering

  /** A transaction as the provider lists it: kind 'w' (waiver) or 'f'
      (free agent), result 'a' when accepted. */
  datatype Transaction = Transaction(entry: int, kind: string, event: int, elementOut: int, elementIn: int,
                                     result: string)

  /** A recorded waiver. The points lists hold entry g-1 for gameweek g. */
  datatype WaiverInfo = WaiverInfo(team: string, teamId: int, kind: string, effectiveGw: int,
                                   playerOut: int, playerIn: int,
                                   playerInPoints: seq<int>, playerOutPoints: seq<int>,
                                   playerIn1w: int, playerOut1w: int, relativePerformance: int)

  /** 'waiver_info': transaction number -> recorded waiver, in list order. */
  type WaiverLog = Dict<int, WaiverInfo>

  /** Only accepted transactions are recorded. */
  predicate Accepted(t: Transaction)
  {
    t.result == "a"
  }

  /** A player's points in one gameweek file; a player the file does not
      list (not yet signed, say) scores 0. */
  function PointsIn(scores: map<int, int>, playerId: int): int
  {
    if playerId in scores then scores[playerId] else 0
  }

  /** The gameweek files 1..n all exist. */
  predicate FilesPresent(n: int, index: ScoreIndex)
  {
    forall g :: 1 <= g <= n ==> g in index
  }

  /** A player's points in gameweeks 1..n, one entry per gameweek. */
  function History(playerId: int, n: int, index: ScoreIndex): (h: seq<int>)
    requires FilesPresent(n, index)
    ensures |h| == Max(0, n)
  {
    seq(Max(0, n), k requires 0 <= k < Max(0, n) => PointsIn(index[k + 1], playerId))
  }

  /** The record of one accepted transaction up to gameweek currentGw; None
      when the team is not in the league (get_team_name exits) or a
      gameweek file is missing (get_player_stats_gw exits). */
  function WaiverOf(t: Transaction, currentGw: int, entries: Entries, index: ScoreIndex): Option<WaiverInfo>
  {
    if t.entry !in entries || !FilesPresent(currentGw, index) then None
    else
      var inPoints := History(t.elementIn, currentGw, index);
      var outPoints := History(t.elementOut, currentGw, index);
      var inWeek := if 1 <= t.event <= currentGw then inPoints[t.event - 1] else 0;
      var outWeek := if 1 <= t.event <= currentGw then outPoints[t.event - 1] else 0;
      Some(WaiverInfo(entries[t.entry].entryName, t.entry, t.kind, t.event, t.elementOut, t.elementIn,
                      inPoints, outPoints, inWeek, outWeek, inWeek - outWeek))
  }

  /** WaiverOf as the record-maker of the numbering. */
  function WaiverMaker(currentGw: int, entries: Entries, index: ScoreIndex): Transaction -> Option<WaiverInfo>
  {
    t => WaiverOf(t, currentGw, entries, index)
  }

  /** What collect_waiver_data returns: transaction number n (1-based,
      counting every transaction) -> record, for the accepted ones. */
  function CollectOf(transactions: seq<Transaction>, currentGw: int, entries: Entries, index: ScoreIndex)
    : Option<WaiverLog>
  {
    Numbered(transactions, Accepted, WaiverMaker(currentGw, entries, index))
  }

  // ---------------------------------------------------------------------------
  // collect_waiver_data

  /** The body of the transactions loop for an accepted transaction: the
      record starts with zeroed performances and the gameweek loop appends
      both players' points, filling in the effective gameweek's figures
      when it passes it. */
  method RecordWaiver(t: Transaction, currentGw: int, entries: Entries, index: ScoreIndex)
    returns (r: Option<WaiverInfo>)
    ensures r == WaiverOf(t, currentGw, entries, index)
  {
    if t.entry !in entries {
      return None;
    }
    var info := WaiverInfo(entries[t.entry].entryName, t.entry, t.kind, t.event, t.elementOut, t.elementIn,
                           [], [], 0, 0, 0);
    var g := 1;
    while g <= currentGw
      invariant 1 <= g <= Max(1, currentGw + 1)
      invariant Recorded(info, t, g, entries, index)
      decreases currentGw + 1 - g
    {
      if g !in index {
        return None;
      }
      info := RecordWeek(info, t, g, entries, index);
      g := g + 1;
    }
    assert History(t.elementIn, g - 1, index) == History(t.elementIn, currentGw, index);
    assert History(t.elementOut, g - 1, index) == History(t.elementOut, currentGw, index);
    return Some(info);
  }

  /** The record after the gameweek loop has passed gameweeks 1..g-1. */
  ghost predicate Recorded(info: WaiverInfo, t: Transaction, g: int, entries: Entries, index: ScoreIndex)
  {
    && t.entry in entries
    && FilesPresent(g - 1, index)
    && info.playerInPoints == History(t.elementIn, g - 1, index)
    && info.playerOutPoints == History(t.elementOut, g - 1, index)
    && info.playerIn1w == (if 1 <= t.event < g then info.playerInPoints[t.event - 1] else 0)
    && info.playerOut1w == (if 1 <= t.event < g then info.playerOutPoints[t.event - 1] else 0)
    && info.relativePerformance == info.playerIn1w - info.playerOut1w
    && info.team == entries[t.entry].entryName && info.teamId == t.entry && info.kind == t.kind
    && info.effectiveGw == t.event && info.playerOut == t.elementOut && info.playerIn == t.elementIn
  }

  /** One pass of the gameweek loop: both players' points for gameweek g
      are appended, and become the one-week figures when g is the
      effective gameweek. */
  method RecordWeek(info: WaiverInfo, t: Transaction, g: int, entries: Entries, index: ScoreIndex)
    returns (next: WaiverInfo)
    requires 1 <= g && g in index && Recorded(info, t, g, entries, index)
    ensures Recorded(next, t, g + 1, entries, index)
  {
    var inPoints := PointsIn(index[g], t.elementIn);
    var outPoints := PointsIn(index[g], t.elementOut);
    HistoryStep(t.elementIn, g, index);
    HistoryStep(t.elementOut, g, index);
    next := info.(playerInPoints := info.playerInPoints + [inPoints],
                  playerOutPoints := info.playerOutPoints + [outPoints]);
    if g == t.event {
      next := next.(playerIn1w := inPoints, playerOut1w := outPoints,
                    relativePerformance := inPoints - outPoints);
    }
  }

  lemma HistoryStep(playerId: int, g: int, index: ScoreIndex)
    requires 1 <= g && FilesPresent(g - 1, index) && g in index
    ensures FilesPresent(g, index)
    ensures History(playerId, g, index) == History(playerId, g - 1, index) + [PointsIn(index[g], playerId)]
  {
  }

  /** collect_waiver_data over the league's transaction list. */
  method CollectWaiverData(transactions: seq<Transaction>, currentGw: int, entries: Entries, index: ScoreIndex)
    returns (r: Option<WaiverLog>)
    ensures r == CollectOf(transactions, currentGw, entries, index)
  {
    var log: WaiverLog := [];
    var i := 0;
    while i < |transactions|
      invariant 0 <= i <= |transactions|
      invariant CollectOf(transactions[..i], currentGw, entries, index) == Some(log)
    {
      var t := transactions[i];
      NumberedStep(transactions, i, Accepted, WaiverMaker(currentGw, entries, index));
      i := i + 1;
      if Accepted(t) {
        var info := RecordWaiver(t, currentGw, entries, index);
        if info.None? {
          NumberedStop(transactions, i, Accepted, WaiverMaker(currentGw, entries, index));
          return None;
        }
        log := log + [(i, info.value)];
      }
    }
    assert transactions[..|transactions|] == transactions;
    return Some(log);
  }

  // ---------------------------------------------------------------------------
  // properties of the tracker

  /** Transaction numbers count every transaction from 1, rejected ones
      included; only accepted ones appear, in increasing order. */
  lemma WaiverNumbering(transactions: seq<Transaction>, currentGw: int, entries: Entries, index: ScoreIndex)
    requires CollectOf(transactions, currentGw, entries, index).Some?
    ensures var log := CollectOf(transactions, currentGw, entries, index).value;
      && (forall n :: n in Keys(log) <==> 1 <= n <= |transactions| && Accepted(transactions[n - 1]))
      && (forall j, k :: 0 <= j < k < |log| ==> log[j].0 < log[k].0)
  {
    NumberedKeys(transactions, Accepted, WaiverMaker(currentGw, entries, index));
  }

  /** The entry under number n is the record of the n-th transaction. */
  lemma WaiverEntries(transactions: seq<Transaction>, currentGw: int, entries: Entries, index: ScoreIndex)
    requires CollectOf(transactions, currentGw, entries, index).Some?
    ensures var log := CollectOf(transactions, currentGw, entries, index).value;
      forall j :: 0 <= j < |log| ==>
        1 <= log[j].0 <= |transactions| && WaiverOf(transactions[log[j].0 - 1], currentGw, entries, index) == Some(log[j].1)
  {
    NumberedEntries(transactions, Accepted, WaiverMaker(currentGw, entries, index));
  }

  /** The tracker fails exactly when an accepted transaction names a team
      outside the league, or there is an accepted transaction and a
      gameweek file up to the current one is missing. */
  lemma WaiverFails(transactions: seq<Transaction>, currentGw: int, entries: Entries, index: ScoreIndex)
    ensures CollectOf(transactions, currentGw, entries, index).None?
        <==> (exists k :: 0 <= k < |transactions| && Accepted(transactions[k]) && transactions[k].entry !in entries)
             || ((exists k :: 0 <= k < |transactions| && Accepted(transactions[k]))
                 && exists g :: 1 <= g <= currentGw && g !in index)
  {
    NumberedFails(transactions, Accepted, WaiverMaker(currentGw, entries, index));
  }

  /** A recorded waiver: both points lists have one entry per gameweek up to
      the current one, entry g-1 being the player's points in gameweek g
      (0 when the gameweek file does not list the player); when the
      effective gameweek is one of those, the one-week figures are its
      entries and the relative performance is player in minus player out,
      and otherwise all three stay 0. */
  lemma WaiverRecord(t: Transaction, currentGw: int, entries: Entries, index: ScoreIndex)
    requires WaiverOf(t, currentGw, entries, index).Some?
    ensures var w := WaiverOf(t, currentGw, entries, index).value;
      && w.team == entries[t.entry].entryName && w.teamId == t.entry && w.kind == t.kind
      && w.effectiveGw == t.event && w.playerIn == t.elementIn && w.playerOut == t.elementOut
      && |w.playerInPoints| == |w.playerOutPoints| == Max(0, currentGw)
      && (forall g :: 1 <= g <= currentGw ==>
            && w.playerInPoints[g - 1] == PointsIn(index[g], t.elementIn)
            && w.playerOutPoints[g - 1] == PointsIn(index[g], t.elementOut))
      && (1 <= t.event <= currentGw ==>
            && w.playerIn1w == PointsIn(index[t.event], t.elementIn)
            && w.playerOut1w == PointsIn(index[t.event], t.elementOut)
            && w.relativePerformance == w.playerIn1w - w.playerOut1w)
      && (!(1 <= t.event <= currentGw) ==> w.playerIn1w == 0 && w.playerOut1w == 0 && w.relativePerformance == 0)
  {
  }
}
