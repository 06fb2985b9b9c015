/**
  The short waiver summary of a gameweek (waiver_summary.py): how many
  transactions took effect this gameweek, the previous gameweek's waivers
  ranked by relative performance with the top and bottom three listed, a
  comment for an exceptional result either way, and the best and worst
  waivers of all time.
 */
module WaiverSummary {
  import opened PyLib
  import opened Sorting
  import opened TrackWaivers
  import opened WaiverData

  // ---------------------------------------------------------------------------
  // get_performance_comment

  /** Which list the comment is drawn from; the drawn text itself is random. */
  datatype Comment = Praise | Scorn

  /** A result at least this far from 0 earns a comment. */
  const CommentThreshold: int := 5

  function PerformanceComment(relativePerformance: int): Option<Comment>
  {
    if relativePerformance >= CommentThreshold then Some(Praise)
    else if relativePerformance <= -CommentThreshold then Some(Scorn)
    else None
  }

  /** Praise exactly from +5 up, scorn exactly from -5 down, and no comment
      strictly between. */
  lemma CommentCases(rp: int)
    ensures PerformanceComment(rp) == Some(Praise) <==> rp >= 5
    ensures PerformanceComment(rp) == Some(Scorn) <==> rp <= -5
    ensures PerformanceComment(rp).None? <==> -5 < rp < 5
  {
  }

  // ---------------------------------------------------------------------------
  // the transaction count

  /** The positions of the saved entries, among the first k, that took
      effect in the gameweek. */
  function EntriesAt(saved: SavedLog, gameweek: int, k: int): set<int>
  {
    set i | 0 <= i < k && i < |saved| && saved[i].1.effectiveGw == gameweek
  }

  /** One more entry adds its position when it took effect in the
      gameweek. */
  lemma EntriesStep(saved: SavedLog, gameweek: int, k: nat)
    requires k < |saved|
    ensures EntriesAt(saved, gameweek, k + 1)
         == EntriesAt(saved, gameweek, k) + (if saved[k].1.effectiveGw == gameweek then {k} else {})
    ensures k !in EntriesAt(saved, gameweek, k)
  {
  }

  /** The counting loop: the number of saved waivers effective this
      gameweek. */
  method CountThisWeek(saved: SavedLog, gameweek: int) returns (count: nat)
    ensures count == |EntriesAt(saved, gameweek, |saved|)|
  {
    count := 0;
    for k := 0 to |saved|
      invariant count == |EntriesAt(saved, gameweek, k)|
    {
      EntriesStep(saved, gameweek, k);
      if saved[k].1.effectiveGw == gameweek {
        count := count + 1;
      }
    }
  }

  /** The count is the length of the gameweek's list of waivers, the one the
      report groups by team. */
  lemma {:induction false} CountIsWeekLength(saved: SavedLog, gameweek: int)
    ensures |EntriesAt(saved, gameweek, |saved|)| == |AtGameweek(saved, gameweek)|
    decreases |saved|
  {
    if |saved| > 0 {
      var last := |saved| - 1;
      var init := saved[..last];
      var hit := saved[last].1.effectiveGw == gameweek;
      CountIsWeekLength(init, gameweek);
      EntriesPrefix(saved, gameweek, last);
      EntriesStep(saved, gameweek, last);
      CountStep(EntriesAt(saved, gameweek, last), EntriesAt(saved, gameweek, |saved|), last, hit);
      assert AtGameweek(saved, gameweek) == AtGameweek(init, gameweek) + (if hit then [saved[last].1] else []);
    }
  }

  lemma CountStep(before: set<int>, after: set<int>, k: int, hit: bool)
    requires k !in before && after == before + (if hit then {k} else {})
    ensures |after| == |before| + (if hit then 1 else 0)
  {
  }

  lemma EntriesPrefix(saved: SavedLog, gameweek: int, k: nat)
    requires k <= |saved|
    ensures EntriesAt(saved[..k], gameweek, k) == EntriesAt(saved, gameweek, k)
  {
  }

  // ---------------------------------------------------------------------------
  // get_all_time_extremes

  /** All saved waivers sorted by relative performance, best first with ties
      in tracker order: the first is the best ever, the last the worst ever,
      and both are None when nothing is saved. */
  method AllTimeExtremes(saved: SavedLog) returns (best: Option<WaiverInfo>, worst: Option<WaiverInfo>)
    ensures best.None? <==> |saved| == 0
    ensures worst.None? <==> |saved| == 0
    ensures best.Some? ==>
              && best.value in Values(saved)
              && (forall w :: w in Values(saved) ==> PerfKey(w) <= PerfKey(best.value))
              && var ties := Matching(Values(saved), PerfKey, PerfKey(best.value));
                 |ties| > 0 && best.value == ties[0]
    ensures worst.Some? ==>
              && worst.value in Values(saved)
              && (forall w :: w in Values(saved) ==> PerfKey(worst.value) <= PerfKey(w))
              && var ties := Matching(Values(saved), PerfKey, PerfKey(worst.value));
                 |ties| > 0 && worst.value == ties[|ties| - 1]
  {
    var all: seq<WaiverInfo> := [];
    for k := 0 to |saved|
      invariant all == Values(saved)[..k]
    {
      all := all + [saved[k].1];
    }
    assert all == Values(saved);
    if |all| == 0 {
      return None, None;
    }
    var ranked := SortBy(all, PerfKey);
    SortedFirst(all, PerfKey);
    SortedLast(all, PerfKey);
    best, worst := Some(ranked[0]), Some(ranked[|ranked| - 1]);
  }

  // ---------------------------------------------------------------------------
  // generate_waiver_summary

  /** One listed waiver of the top or bottom three: the team, the dropped
      and the signed player's scores up to the listed gameweek, the printed
      performance figure and the comment it earns. */
  datatype Listed = Listed(team: string, outScores: seq<int>, inScores: seq<int>, figure: string,
                           comment: Option<Comment>)

  /** A top-three line prints a literal '+' before the performance; a
      bottom-three line prints the sign only for a gain. */
  function ListedOf(w: WaiverInfo, gameweek: int, top: bool): Listed
  {
    Listed(w.team, RecentScores(w.playerOutPoints, gameweek), RecentScores(w.playerInPoints, gameweek),
           if top then PlusPerformance(w.relativePerformance) else SignedPerformance(w.relativePerformance),
           PerformanceComment(w.relativePerformance))
  }

  /** A bottom-three line's figure carries the sign of the waiver's result
      and reads back as it; a top-three line's figure always starts with
      '+', and the two agree exactly for gains. Both lines show the same
      team, at most three scores per player, and the comment the
      thresholds give. */
  lemma ListedShape(w: WaiverInfo, gameweek: int)
    ensures var (t, b) := (ListedOf(w, gameweek, true), ListedOf(w, gameweek, false));
      && (b.figure[0] == '+' <==> w.relativePerformance >= 0)
      && ParseSigned(b.figure) == w.relativePerformance
      && t.figure[0] == '+'
      && (t.figure == b.figure <==> w.relativePerformance >= 0)
      && t.team == b.team == w.team && t.comment == b.comment
      && (b.comment == Some(Praise) <==> w.relativePerformance >= 5)
      && (b.comment == Some(Scorn) <==> w.relativePerformance <= -5)
      && (gameweek >= 0 ==> |b.outScores| <= 3 && |b.inScores| <= 3)
  {
    var rp := w.relativePerformance;
    SignedPerformanceSign(rp);
    if rp < 0 {
      assert |PlusPerformance(rp)| == |SignedPerformance(rp)| + 1;
    }
    RecentWindow(w.playerOutPoints, gameweek);
    RecentWindow(w.playerInPoints, gameweek);
  }

  /** The loop that turns the selected waivers into listed lines. */
  method ListAll(ws: seq<WaiverInfo>, gameweek: int, top: bool) returns (lines: seq<Listed>)
    ensures |lines| == |ws| && forall k :: 0 <= k < |ws| ==> lines[k] == ListedOf(ws[k], gameweek, top)
  {
    lines := [];
    for k := 0 to |ws|
      invariant |lines| == k && forall i :: 0 <= i < k ==> lines[i] == ListedOf(ws[i], gameweek, top)
    {
      lines := lines + [ListedOf(ws[k], gameweek, top)];
    }
  }

  /** What the summary selects: this gameweek's count, the previous
      gameweek's ranking with its top and bottom three as listed lines, and
      the all-time best and worst. */
  method GenerateWaiverSummary(saved: SavedLog, gameweek: int)
    returns (count: nat, ranked: seq<WaiverInfo>, top: seq<Listed>, bottom: seq<Listed>,
             best: Option<WaiverInfo>, worst: Option<WaiverInfo>)
    ensures count == |AtGameweek(saved, gameweek)|
    ensures multiset(ranked) == multiset(AtGameweek(saved, gameweek - 1))
    ensures NonIncreasing(ranked, PerfKey)
    ensures forall v :: Matching(ranked, PerfKey, v) == Matching(AtGameweek(saved, gameweek - 1), PerfKey, v)
    ensures |top| == Min(3, |ranked|) && forall k :: 0 <= k < |top| ==> top[k] == ListedOf(ranked[k], gameweek - 1, true)
    ensures |bottom| == Min(3, |ranked|)
      && forall k :: 0 <= k < |bottom| ==> bottom[k] == ListedOf(ranked[|ranked| - 1 - k], gameweek - 1, false)
    ensures best.None? <==> |saved| == 0
    ensures worst.None? <==> |saved| == 0
    ensures best.Some? ==> best.value in Values(saved) && forall w :: w in Values(saved) ==> PerfKey(w) <= PerfKey(best.value)
    ensures worst.Some? ==> worst.value in Values(saved) && forall w :: w in Values(saved) ==> PerfKey(worst.value) <= PerfKey(w)
  {
    count := CountThisWeek(saved, gameweek);
    CountIsWeekLength(saved, gameweek);
    var topWaivers, bottomWaivers;
    ranked, topWaivers, bottomWaivers := RankWeek(saved, gameweek - 1);
    Bottom3Shape(ranked);
    top := ListAll(topWaivers, gameweek - 1, true);
    bottom := ListAll(bottomWaivers, gameweek - 1, false);
    best, worst := AllTimeExtremes(saved);
  }
}
