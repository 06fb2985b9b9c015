/**
  The saved waiver tracker as the report scripts read it back
  (waiver_report.py, waiver_summary.py, free_agent_summary.py), and the
  pieces those scripts share: the backward score window, the list of a
  gameweek's waivers, its ranking by relative performance with the top and
  bottom three, and the signed performance figure.
 */
module WaiverData {
  import opened PyLib
  import opened Sorting
  import opened Fpl
  import opened TrackWaivers

  /** waiver_tracker.json: JSON turns the transaction numbers into strings. */
  type SavedLog = Dict<string, WaiverInfo>

  function Saved(log: WaiverLog): (saved: SavedLog)
    ensures |saved| == |log| && forall k :: 0 <= k < |log| ==> saved[k] == (IntStr(log[k].0), log[k].1)
  {
    seq(|log|, k requires 0 <= k < |log| => (IntStr(log[k].0), log[k].1))
  }

  /** Looking a number up by str(number) in the saved tracker finds what the
      tracker stored under that number. */
  lemma SavedLookup(log: WaiverLog, n: int)
    ensures Lookup(Saved(log), IntStr(n)) == Lookup(log, n)
  {
    var saved := Saved(log);
    if IntStr(n) in Keys(saved) {
      SavedKeyFound(log, n);
    }
    if n in Keys(log) {
      var i := KeyIndex(log, n);
      assert Keys(saved)[i] == IntStr(n);
      var j := KeyIndex(saved, IntStr(n));
      IntStrInjective(log[j].0, n);
      assert j == i;
    }
  }

  lemma SavedKeyFound(log: WaiverLog, n: int)
    requires IntStr(n) in Keys(Saved(log))
    ensures n in Keys(log)
  {
    var j := KeyIndex(Saved(log), IntStr(n));
    IntStrInjective(log[j].0, n);
    assert Keys(log)[j] == n;
  }

  // ---------------------------------------------------------------------------
  // get_recent_scores (waiver_report.py and waiver_summary.py)

  /** points_list[max(0, gw - 3):gw]: the entries of gameweeks gw-2..gw that
      the list holds (entry g-1 is gameweek g). */
  function RecentScores(points: seq<int>, effectiveGw: int): (scores: seq<int>)
  {
    PySlice(points, Max(0, effectiveGw - 3), effectiveGw)
  }

  /** The window holds at most three entries and ends with the effective
      gameweek's own entry; it is empty for gameweek 0. (A negative gameweek
      would count from the end of the list, as Python slicing does.) */
  lemma RecentWindow(points: seq<int>, gw: int)
    ensures gw >= 0 ==> |RecentScores(points, gw)| <= 3
    ensures gw == 0 ==> RecentScores(points, gw) == []
    ensures 1 <= gw <= |points| ==> RecentScores(points, gw) == points[Max(0, gw - 3)..gw]
    ensures 3 <= gw <= |points| ==> RecentScores(points, gw) == [points[gw - 3], points[gw - 2], points[gw - 1]]
    ensures gw > |points| ==> RecentScores(points, gw) == points[Min(|points|, Max(0, gw - 3))..]
  {
    var lo, hi := SliceBound(Max(0, gw - 3), |points|), SliceBound(gw, |points|);
    assert RecentScores(points, gw) == if lo < hi then points[lo..hi] else [];
    if 3 <= gw <= |points| {
      assert points[gw - 3..gw] == [points[gw - 3], points[gw - 2], points[gw - 1]];
    }
  }

  /** On a tracked waiver the window shows the player's points in the
      gameweeks max(1, gw-2)..gw, for a gameweek the tracker has reached. */
  lemma RecentOfTracked(t: Transaction, currentGw: int, entries: Entries, index: ScoreIndex, gw: int)
    requires WaiverOf(t, currentGw, entries, index).Some?
    requires 1 <= gw <= currentGw
    ensures var w := WaiverOf(t, currentGw, entries, index).value;
      var from := Max(1, gw - 2);
      && RecentScores(w.playerInPoints, gw) == seq(gw - from + 1, k requires 0 <= k < gw - from + 1 => PointsIn(index[from + k], t.elementIn))
      && RecentScores(w.playerOutPoints, gw) == seq(gw - from + 1, k requires 0 <= k < gw - from + 1 => PointsIn(index[from + k], t.elementOut))
  {
    WaiverRecord(t, currentGw, entries, index);
    var w := WaiverOf(t, currentGw, entries, index).value;
    var from := Max(1, gw - 2);
    RecentWindow(w.playerInPoints, gw);
    RecentWindow(w.playerOutPoints, gw);
    WindowOfHistory(w.playerInPoints, t.elementIn, currentGw, index, gw);
    WindowOfHistory(w.playerOutPoints, t.elementOut, currentGw, index, gw);
  }

  lemma WindowOfHistory(points: seq<int>, p: int, currentGw: int, index: ScoreIndex, gw: int)
    requires 1 <= gw <= currentGw && |points| == currentGw && FilesPresent(currentGw, index)
    requires forall g :: 1 <= g <= currentGw ==> points[g - 1] == PointsIn(index[g], p)
    ensures var from := Max(1, gw - 2);
      points[Max(0, gw - 3)..gw] == seq(gw - from + 1, k requires 0 <= k < gw - from + 1 => PointsIn(index[from + k], p))
  {
    var from := Max(1, gw - 2);
    assert Max(0, gw - 3) == from - 1;
    forall i | from - 1 <= i < gw
      ensures points[i] == PointsIn(index[i + 1], p)
    {
      assert 1 <= i + 1 <= currentGw;
    }
  }

  // ---------------------------------------------------------------------------
  // a gameweek's waivers, ranked

  /** The relative performance, the key of every ranking of waivers. */
  function PerfKey(w: WaiverInfo): int
  {
    w.relativePerformance
  }

  /** The saved waivers that took effect in gameweek gw, in tracker order. */
  function AtGameweek(saved: SavedLog, gw: int): (r: seq<WaiverInfo>)
    ensures |r| <= |saved|
    ensures forall w :: w in r <==> w in Values(saved) && w.effectiveGw == gw
  {
    if |saved| == 0 then []
    else
      var w := saved[|saved| - 1].1;
      assert Values(saved) == Values(saved[..|saved| - 1]) + [w];
      AtGameweek(saved[..|saved| - 1], gw) + (if w.effectiveGw == gw then [w] else [])
  }

  /** The loop that collects the waivers of one gameweek. */
  method CollectWeek(saved: SavedLog, gw: int) returns (ws: seq<WaiverInfo>)
    ensures ws == AtGameweek(saved, gw)
  {
    ws := [];
    for k := 0 to |saved|
      invariant ws == AtGameweek(saved[..k], gw)
    {
      assert saved[..k + 1][..k] == saved[..k];
      var w := saved[k].1;
      if w.effectiveGw == gw {
        ws := ws + [w];
      }
    }
    assert saved[..|saved|] == saved;
  }

  /** list[:3]. */
  function Top3<T>(ranked: seq<T>): (top: seq<T>)
    ensures |top| == Min(3, |ranked|) && top == ranked[..|top|]
  {
    if |ranked| <= 3 then ranked else ranked[..3]
  }

  /** list[-3:][::-1]. */
  function Bottom3<T>(ranked: seq<T>): (bottom: seq<T>)
  {
    Reverse(PySlice(ranked, -3, |ranked|))
  }

  /** The bottom three are the last min(3, n) entries, last first. */
  lemma Bottom3Shape<T>(ranked: seq<T>)
    ensures |Bottom3(ranked)| == Min(3, |ranked|)
    ensures forall k :: 0 <= k < |Bottom3(ranked)| ==> Bottom3(ranked)[k] == ranked[|ranked| - 1 - k]
  {
  }

  /** In a ranking by relative performance every top-three waiver did at
      least as well as every waiver ranked after it, and every bottom-three
      waiver at most as well as every waiver ranked before it; the first of
      the bottom three is the worst of all. */
  lemma TopBottomBounds(ranked: seq<WaiverInfo>, i: nat, j: nat)
    requires NonIncreasing(ranked, PerfKey)
    requires i < j < |ranked|
    ensures i < |Top3(ranked)| ==> Top3(ranked)[i].relativePerformance >= ranked[j].relativePerformance
    ensures |ranked| - 1 - j < |Bottom3(ranked)| ==>
      Bottom3(ranked)[|ranked| - 1 - j].relativePerformance <= ranked[i].relativePerformance
    ensures |ranked| > 0 ==> Bottom3(ranked)[0].relativePerformance <= ranked[i].relativePerformance
  {
    Bottom3Shape(ranked);
  }

  /** The previous gameweek's waivers sorted by relative performance, best
      first with ties in tracker order, and the top and bottom three. */
  method RankWeek(saved: SavedLog, gw: int) returns (ranked: seq<WaiverInfo>, top: seq<WaiverInfo>, bottom: seq<WaiverInfo>)
    ensures multiset(ranked) == multiset(AtGameweek(saved, gw))
    ensures NonIncreasing(ranked, PerfKey)
    ensures forall v :: Matching(ranked, PerfKey, v) == Matching(AtGameweek(saved, gw), PerfKey, v)
    ensures top == Top3(ranked) && bottom == Bottom3(ranked)
  {
    var week := CollectWeek(saved, gw);
    ranked := SortBy(week, PerfKey);
    SortByOrdered(week, PerfKey);
    forall v
      ensures Matching(ranked, PerfKey, v) == Matching(week, PerfKey, v)
    {
      SortByStable(week, PerfKey, v);
    }
    top := Top3(ranked);
    bottom := Bottom3(ranked);
  }

  // ---------------------------------------------------------------------------
  // the performance figure

  /** f"{perf_sign}{rp}" with perf_sign '+' for rp >= 0: every figure carries
      exactly one sign, '+' or '-', except 0 which reads "+0". */
  function SignedPerformance(rp: int): (text: string)
    ensures |text| >= 2
  {
    (if rp >= 0 then "+" else "") + IntStr(rp)
  }

  /** Reading a figure back: an optional leading '+', then int(). */
  function ParseSigned(text: string): int
  {
    if |text| > 0 && text[0] == '+' then ParseInt(text[1..]) else ParseInt(text)
  }

  /** The figure starts with '+' exactly when the waiver did not lose points,
      with '-' exactly when it did, and reads back as the number. */
  lemma SignedPerformanceSign(rp: int)
    ensures SignedPerformance(rp)[0] == '+' <==> rp >= 0
    ensures SignedPerformance(rp)[0] == '-' <==> rp < 0
    ensures SignedPerformance(rp)[1] != '+' && SignedPerformance(rp)[1] != '-'
    ensures ParseSigned(SignedPerformance(rp)) == rp
  {
    IntStrRoundTrip(rp);
    var text := SignedPerformance(rp);
    if rp >= 0 {
      assert text == "+" + NatStr(rp);
      assert text[1..] == IntStr(rp);
      assert text[1] == NatStr(rp)[0];
      NatStrFirst(rp);
    } else {
      assert text == "-" + NatStr(-rp);
      assert text[1] == NatStr(-rp)[0];
      NatStrFirst(-rp);
    }
  }

  /** The first character of str(n) for n >= 0 is a digit. */
  lemma {:induction false} NatStrFirst(n: nat)
    ensures '0' <= NatStr(n)[0] <= '9'
  {
    if n >= 10 {
      NatStrFirst(n / 10);
    }
  }

  /** f"+{rp}" as the top-three lines and the best-ever line print it. */
  function PlusPerformance(rp: int): (text: string)
    ensures |text| >= 2 && text[0] == '+'
  {
    "+" + IntStr(rp)
  }

  /** With a loss the unconditional '+' prints both signs: -3 reads "+-3"
      where the signed figure reads "-3". */
  lemma PlusPerformanceLoss()
    ensures PlusPerformance(-3) == "+-3"
    ensures SignedPerformance(-3) == "-3"
  {
    assert NatStr(3) == "3";
  }
}
