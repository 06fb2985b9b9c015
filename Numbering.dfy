/**
  The numbering shared by the trade and waiver trackers: walk a provider
  list, keep the items a predicate selects, and store each kept item's
  record under its 1-based position in the FULL list (skipped items still
  use up a number). A kept item whose record cannot be built ends the
  script, which the model returns as None.
 */
module Numbering {
  import opened PyLib

  function Numbered<T, R>(items: seq<T>, keep: T -> bool, make: T -> Option<R>): Option<Dict<int, R>>
  {
    if |items| == 0 then Some([])
    else match Numbered(items[..|items| - 1], keep, make)
      case None => None
      case Some(log) =>
        var t := items[|items| - 1];
        if !keep(t) then Some(log)
        else match make(t)
          case None => None
          case Some(r) => Some(log + [(|items|, r)])
  }

  /** One more item of the list, as the tracker loops take it. */
  lemma NumberedStep<T, R>(items: seq<T>, k: nat, keep: T -> bool, make: T -> Option<R>)
    requires k < |items| && Numbered(items[..k], keep, make).Some?
    ensures Numbered(items[..k + 1], keep, make)
      == if !keep(items[k]) then Numbered(items[..k], keep, make)
         else if make(items[k]).None? then None
         else Some(Numbered(items[..k], keep, make).value + [(k + 1, make(items[k]).value)])
  {
    assert items[..k + 1][..k] == items[..k];
  }

  /** Once a prefix fails, the whole list fails. */
  lemma {:induction false} NumberedStop<T, R>(items: seq<T>, k: nat, keep: T -> bool, make: T -> Option<R>)
    requires k <= |items| && Numbered(items[..k], keep, make).None?
    ensures Numbered(items, keep, make).None?
    decreases |items| - k
  {
    if k < |items| {
      assert items[..k + 1][..k] == items[..k];
      NumberedStop(items, k + 1, keep, make);
    } else {
      assert items[..k] == items;
    }
  }

  /** The numbers are exactly the positions of the kept items, increasing. */
  lemma {:induction false} NumberedKeys<T, R>(items: seq<T>, keep: T -> bool, make: T -> Option<R>)
    requires Numbered(items, keep, make).Some?
    ensures var log := Numbered(items, keep, make).value;
      && (forall n :: n in Keys(log) <==> 1 <= n <= |items| && keep(items[n - 1]))
      && (forall j, k :: 0 <= j < k < |log| ==> log[j].0 < log[k].0)
      && (forall j :: 0 <= j < |log| ==> 1 <= log[j].0 <= |items|)
    decreases |items|
  {
    if |items| > 0 {
      var init := items[..|items| - 1];
      NumberedKeys(init, keep, make);
      var log := Numbered(init, keep, make).value;
      var log' := Numbered(items, keep, make).value;
      var t := items[|items| - 1];
      if keep(t) {
        assert log' == log + [(|items|, make(t).value)];
        assert Keys(log') == Keys(log) + [|items|];
      } else {
        assert log' == log;
      }
      forall n
        ensures n in Keys(log') <==> 1 <= n <= |items| && keep(items[n - 1])
      {
        if 1 <= n <= |init| {
          assert init[n - 1] == items[n - 1];
        }
      }
    }
  }

  /** The record under number n is the record of the n-th item. */
  lemma {:induction false} NumberedEntries<T, R>(items: seq<T>, keep: T -> bool, make: T -> Option<R>)
    requires Numbered(items, keep, make).Some?
    ensures var log := Numbered(items, keep, make).value;
      forall j :: 0 <= j < |log| ==> 1 <= log[j].0 <= |items| && make(items[log[j].0 - 1]) == Some(log[j].1)
    decreases |items|
  {
    if |items| > 0 {
      var init := items[..|items| - 1];
      NumberedEntries(init, keep, make);
      var log := Numbered(init, keep, make).value;
      forall j | 0 <= j < |log|
        ensures items[log[j].0 - 1] == init[log[j].0 - 1]
      {
      }
    }
  }

  /** The walk fails exactly when some kept item cannot be recorded. */
  lemma {:induction false} NumberedFails<T, R>(items: seq<T>, keep: T -> bool, make: T -> Option<R>)
    ensures Numbered(items, keep, make).None?
        <==> exists k :: 0 <= k < |items| && keep(items[k]) && make(items[k]).None?
    decreases |items|
  {
    if |items| > 0 {
      var init := items[..|items| - 1];
      NumberedFails(init, keep, make);
      if exists k :: 0 <= k < |init| && keep(init[k]) && make(init[k]).None? {
        var k :| 0 <= k < |init| && keep(init[k]) && make(init[k]).None?;
        assert items[k] == init[k];
      }
      if exists k :: 0 <= k < |items| && keep(items[k]) && make(items[k]).None? {
        var k :| 0 <= k < |items| && keep(items[k]) && make(items[k]).None?;
        if k < |init| {
          assert init[k] == items[k];
        }
      }
    }
  }
}
