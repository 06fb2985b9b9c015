/**
  The announcement of one free-agent pickup (free_agent_summary.py): looked
  up by its transaction number in the saved tracker, a free-agent claim is
  announced with the team, the scores of both players from the gameweek it
  took effect on, and the signed performance figure; anything else yields
  (False, "").
 */
module FreeAgentSummary {
  import opened PyLib
  import opened Fpl
  import opened TrackWaivers
  import opened WaiverData

  /** get_recent_scores looking forward: points_list[gw:gw + 3]. */
  function FollowingScores(points: seq<int>, gw: int): seq<int>
  {
    PySlice(points, gw, gw + 3)
  }

  /** The window holds at most three entries; from index gw on, as far as
      the list reaches. */
  lemma FollowingWindow(points: seq<int>, gw: int)
    ensures gw >= 0 ==> |FollowingScores(points, gw)| <= 3
    ensures 0 <= gw <= |points| ==> FollowingScores(points, gw) == points[gw..Min(gw + 3, |points|)]
    ensures 0 <= gw && gw + 3 <= |points| ==> FollowingScores(points, gw) == [points[gw], points[gw + 1], points[gw + 2]]
  {
    if 0 <= gw && gw + 3 <= |points| {
      assert points[gw..gw + 3] == [points[gw], points[gw + 1], points[gw + 2]];
    }
  }

  /** The announced pickup: team, effective gameweek, the scores of the
      dropped and of the signed player, the performance figure. */
  datatype Pickup = Pickup(team: string, effectiveGw: int, outScores: seq<int>, inScores: seq<int>,
                           figure: string)

  /** generate_free_agent_summary's decision and content. */
  function FreeAgentOf(saved: SavedLog, waiverId: int): (bool, Option<Pickup>)
  {
    match Lookup(saved, IntStr(waiverId))
    case None => (false, None)
    case Some(w) =>
      if w.kind != "f" then (false, None)
      else (true, Some(Pickup(w.team, w.effectiveGw,
                              FollowingScores(w.playerOutPoints, w.effectiveGw - 1),
                              FollowingScores(w.playerInPoints, w.effectiveGw - 1),
                              SignedPerformance(w.relativePerformance))))
  }

  /** The script with its two early returns. */
  method GenerateFreeAgentSummary(saved: SavedLog, waiverId: int) returns (isFreeAgent: bool, pickup: Option<Pickup>)
    ensures (isFreeAgent, pickup) == FreeAgentOf(saved, waiverId)
  {
    var key := IntStr(waiverId);
    if key !in Keys(saved) {
      return false, None;
    }
    var waiver := saved[KeyIndex(saved, key)].1;
    if waiver.kind != "f" {
      return false, None;
    }
    var outScores := FollowingScores(waiver.playerOutPoints, waiver.effectiveGw - 1);
    var inScores := FollowingScores(waiver.playerInPoints, waiver.effectiveGw - 1);
    var figure := SignedPerformance(waiver.relativePerformance);
    return true, Some(Pickup(waiver.team, waiver.effectiveGw, outScores, inScores, figure));
  }

  /** A pickup is announced exactly when the number is saved and names a
      free-agent claim; the flag and the content go together, and the
      figure starts with '+' exactly when the pickup did not lose points. */
  lemma FreeAgentCases(saved: SavedLog, waiverId: int)
    ensures var (ok, pickup) := FreeAgentOf(saved, waiverId);
      && (ok <==> pickup.Some?)
      && (ok <==> IntStr(waiverId) in Keys(saved) && Lookup(saved, IntStr(waiverId)).value.kind == "f")
      && (ok ==> var w := Lookup(saved, IntStr(waiverId)).value;
                 && pickup.value.team == w.team && pickup.value.effectiveGw == w.effectiveGw
                 && (pickup.value.figure[0] == '+' <==> w.relativePerformance >= 0)
                 && ParseSigned(pickup.value.figure) == w.relativePerformance)
  {
    if IntStr(waiverId) in Keys(saved) {
      SignedPerformanceSign(Lookup(saved, IntStr(waiverId)).value.relativePerformance);
    }
  }

  /** Read from what the tracker saved, transaction n is announced exactly
      when it is an accepted free-agent claim. */
  lemma AnnouncedFromTracker(transactions: seq<Transaction>, currentGw: int, entries: Entries, index: ScoreIndex,
                             n: int)
    requires CollectOf(transactions, currentGw, entries, index).Some?
    ensures FreeAgentOf(Saved(CollectOf(transactions, currentGw, entries, index).value), n).0
        <==> 1 <= n <= |transactions| && Accepted(transactions[n - 1]) && transactions[n - 1].kind == "f"
  {
    var log := CollectOf(transactions, currentGw, entries, index).value;
    SavedLookup(log, n);
    WaiverNumbering(transactions, currentGw, entries, index);
    if n in Keys(log) {
      var j := KeyIndex(log, n);
      TrackedKind(transactions, currentGw, entries, index, j);
    }
  }

  /** A saved entry carries the kind of the transaction it numbers. */
  lemma TrackedKind(transactions: seq<Transaction>, currentGw: int, entries: Entries, index: ScoreIndex, j: nat)
    requires CollectOf(transactions, currentGw, entries, index).Some?
    requires j < |CollectOf(transactions, currentGw, entries, index).value|
    ensures var e := CollectOf(transactions, currentGw, entries, index).value[j];
      1 <= e.0 <= |transactions| && e.1.kind == transactions[e.0 - 1].kind
  {
    WaiverEntries(transactions, currentGw, entries, index);
    var e := CollectOf(transactions, currentGw, entries, index).value[j];
    WaiverRecord(transactions[e.0 - 1], currentGw, entries, index);
  }

  /** For a pickup effective in gameweek e with the tracker at least two
      gameweeks further, the windows show gameweeks e, e+1 and e+2: they
      start at the effective gameweek itself, not after it. */
  lemma WindowsFromEffectiveGw(t: Transaction, currentGw: int, entries: Entries, index: ScoreIndex)
    requires WaiverOf(t, currentGw, entries, index).Some?
    requires 1 <= t.event && t.event + 2 <= currentGw
    ensures var w := WaiverOf(t, currentGw, entries, index).value;
      && FollowingScores(w.playerInPoints, w.effectiveGw - 1)
           == [PointsIn(index[t.event], t.elementIn), PointsIn(index[t.event + 1], t.elementIn),
               PointsIn(index[t.event + 2], t.elementIn)]
      && FollowingScores(w.playerOutPoints, w.effectiveGw - 1)
           == [PointsIn(index[t.event], t.elementOut), PointsIn(index[t.event + 1], t.elementOut),
               PointsIn(index[t.event + 2], t.elementOut)]
  {
    WaiverRecord(t, currentGw, entries, index);
    var w := WaiverOf(t, currentGw, entries, index).value;
    FollowingWindow(w.playerInPoints, t.event - 1);
    FollowingWindow(w.playerOutPoints, t.event - 1);
  }
}
