/**
  Python's sorted(xs, key=k, reverse=True): a stable sort into non-increasing
  key order. Elements whose keys tie keep their input order, which is what
  Python guarantees for reverse=True as well. An ascending sorted(xs, key=k)
  is the same stable sort on the negated key. Also sorted() of distinct
  strings.
 */
module Sorting {
  import opened PyLib

  ghost predicate NonIncreasing<T>(s: seq<T>, key: T -> int)
  {
    forall i, j :: 0 <= i < j < |s| ==> key(s[i]) >= key(s[j])
  }

  /** The elements of s whose key is v, in the order of s. */
  function Matching<T>(s: seq<T>, key: T -> int, v: int): seq<T>
  {
    if |s| == 0 then [] else (if key(s[0]) == v then [s[0]] else []) + Matching(s[1..], key, v)
  }

  /** The key column of s. */
  function KeysBy<T>(s: seq<T>, key: T -> int): (ks: seq<int>)
    ensures |ks| == |s| && forall i :: 0 <= i < |s| ==> ks[i] == key(s[i])
  {
    seq(|s|, i requires 0 <= i < |s| => key(s[i]))
  }

  /** Puts x in front of the first element whose key is not larger than x's. */
  function Insert<T>(x: T, t: seq<T>, key: T -> int): (r: seq<T>)
    ensures multiset(r) == multiset(t) + multiset{x}
    ensures |r| == |t| + 1
  {
    if |t| == 0 || key(t[0]) <= key(x) then [x] + t
    else
      assert t == [t[0]] + t[1..];
      [t[0]] + Insert(x, t[1..], key)
  }

  lemma {:induction false} InsertSorted<T>(x: T, t: seq<T>, key: T -> int)
    requires NonIncreasing(t, key)
    ensures NonIncreasing(Insert(x, t, key), key)
  {
    if |t| > 0 && key(t[0]) > key(x) {
      var rest := Insert(x, t[1..], key);
      InsertSorted(x, t[1..], key);
      forall j | 0 <= j < |rest|
        ensures key(t[0]) >= key(rest[j])
      {
        assert rest[j] in multiset(rest);
        if rest[j] != x {
          assert rest[j] in multiset(t[1..]);
          var m :| 0 <= m < |t[1..]| && t[1..][m] == rest[j];
          assert t[m + 1] == rest[j];
        }
      }
    }
  }

  /** sorted(s, key=key, reverse=True); SortByOrdered states its order. */
  function SortBy<T>(s: seq<T>, key: T -> int): (r: seq<T>)
    ensures multiset(r) == multiset(s) && |r| == |s|
  {
    if |s| == 0 then []
    else
      var rest := SortBy(s[1..], key);
      assert s == [s[0]] + s[1..];
      Insert(s[0], rest, key)
  }

  /** The result of SortBy is in non-increasing key order. */
  lemma {:induction false} SortByOrdered<T>(s: seq<T>, key: T -> int)
    ensures NonIncreasing(SortBy(s, key), key)
  {
    if |s| > 0 {
      SortByOrdered(s[1..], key);
      InsertSorted(s[0], SortBy(s[1..], key), key);
    }
  }

  lemma {:induction false} InsertMatching<T>(x: T, t: seq<T>, key: T -> int, v: int)
    ensures Matching(Insert(x, t, key), key, v)
         == if key(x) == v then [x] + Matching(t, key, v) else Matching(t, key, v)
  {
    if |t| == 0 || key(t[0]) <= key(x) {
      assert ([x] + t)[1..] == t;
    } else {
      InsertMatching(x, t[1..], key, v);
      assert ([t[0]] + Insert(x, t[1..], key))[1..] == Insert(x, t[1..], key);
    }
  }

  /** Stability: for every key value, the elements with that key keep their order. */
  lemma {:induction false} SortByStable<T>(s: seq<T>, key: T -> int, v: int)
    ensures Matching(SortBy(s, key), key, v) == Matching(s, key, v)
  {
    if |s| > 0 {
      SortByStable(s[1..], key, v);
      InsertMatching(s[0], SortBy(s[1..], key), key, v);
    }
  }

  lemma {:induction false} MatchingAppend<T>(a: seq<T>, b: seq<T>, key: T -> int, v: int)
    ensures Matching(a + b, key, v) == Matching(a, key, v) + Matching(b, key, v)
    decreases |a|
  {
    if |a| == 0 {
      assert a + b == b;
    } else {
      var t := a[1..];
      assert a + b == [a[0]] + (t + b);
      MatchingAppend(t, b, key, v);
      MatchingCons(a[0], t + b, key, v);
    }
  }

  lemma MatchingCons<T>(x: T, s: seq<T>, key: T -> int, v: int)
    ensures Matching([x] + s, key, v) == (if key(x) == v then [x] else []) + Matching(s, key, v)
  {
    assert ([x] + s)[1..] == s;
  }

  /** The head of the sorted list has the largest key, and is the first of
      the elements with that key. */
  lemma SortedFirst<T>(s: seq<T>, key: T -> int)
    requires |s| > 0
    ensures var r := SortBy(s, key);
      && r[0] in s
      && (forall w :: w in s ==> key(w) <= key(r[0]))
      && var ties := Matching(s, key, key(r[0])); |ties| > 0 && ties[0] == r[0]
  {
    var r := SortBy(s, key);
    SortByOrdered(s, key);
    SortByStable(s, key, key(r[0]));
    assert r[0] in multiset(r);
    forall w | w in s
      ensures key(w) <= key(r[0])
    {
      assert w in multiset(r);
      var j :| 0 <= j < |r| && r[j] == w;
    }
  }

  /** The end of the sorted list has the smallest key, and is the last of
      the elements with that key. */
  lemma SortedLast<T>(s: seq<T>, key: T -> int)
    requires |s| > 0
    ensures var r := SortBy(s, key);
      && r[|r| - 1] in s
      && (forall w :: w in s ==> key(r[|r| - 1]) <= key(w))
      && var ties := Matching(s, key, key(r[|r| - 1])); |ties| > 0 && ties[|ties| - 1] == r[|r| - 1]
  {
    var r := SortBy(s, key);
    var last := r[|r| - 1];
    SortByOrdered(s, key);
    SortByStable(s, key, key(last));
    MatchingLast(r, key, key(last));
    assert last in multiset(r);
    forall w | w in s
      ensures key(last) <= key(w)
    {
      assert w in multiset(r);
      var j :| 0 <= j < |r| && r[j] == w;
    }
  }

  /** s[i] sits in Matching(s) right after the matches before position i. */
  lemma MatchingAt<T>(s: seq<T>, key: T -> int, v: int, i: nat)
    requires i < |s| && key(s[i]) == v
    ensures |Matching(s[..i], key, v)| < |Matching(s, key, v)|
    ensures Matching(s, key, v)[|Matching(s[..i], key, v)|] == s[i]
  {
    var rest := [s[i]] + s[i + 1..];
    assert s == s[..i] + rest;
    MatchingAppend(s[..i], rest, key, v);
    assert rest[1..] == s[i + 1..];
  }

  /** The last element is the last of the elements with its key. */
  lemma MatchingLast<T>(s: seq<T>, key: T -> int, v: int)
    requires |s| > 0 && key(s[|s| - 1]) == v
    ensures |Matching(s, key, v)| > 0 && Matching(s, key, v)[|Matching(s, key, v)| - 1] == s[|s| - 1]
  {
    assert s == s[..|s| - 1] + [s[|s| - 1]];
    MatchingAppend(s[..|s| - 1], [s[|s| - 1]], key, v);
  }

  /** A match at position i comes before everything matched from i on. */
  lemma MatchingGrows<T>(s: seq<T>, key: T -> int, v: int, i: nat, j: nat)
    requires i < j <= |s| && key(s[i]) == v
    ensures |Matching(s[..i], key, v)| < |Matching(s[..j], key, v)|
  {
    assert s[..j] == s[..i] + s[i..j];
    MatchingAppend(s[..i], s[i..j], key, v);
    assert s[i..j][0] == s[i];
  }

  lemma {:induction false} MatchingSub<T>(s: seq<T>, key: T -> int, v: int)
    ensures multiset(Matching(s, key, v)) <= multiset(s)
  {
    if |s| > 0 {
      MatchingSub(s[1..], key, v);
      assert s == [s[0]] + s[1..];
    }
  }

  ghost predicate DescendingInts(a: seq<int>)
  {
    forall i, j :: 0 <= i < j < |a| ==> a[i] >= a[j]
  }

  lemma HeadIsLargest(a: seq<int>, y: int)
    requires DescendingInts(a) && y in multiset(a)
    ensures a[0] >= y
  {
    var i :| 0 <= i < |a| && a[i] == y;
    if i > 0 { assert a[0] >= a[i]; }
  }

  /** Two non-increasing integer sequences with the same elements are equal. */
  lemma {:induction false} SortedIntsUnique(a: seq<int>, b: seq<int>)
    requires DescendingInts(a) && DescendingInts(b)
    requires multiset(a) == multiset(b)
    ensures a == b
    decreases |a|
  {
    SameHead(a, b);
    if |a| > 0 {
      DescendingTail(a);
      DescendingTail(b);
      SortedIntsUnique(a[1..], b[1..]);
      assert a == [a[0]] + a[1..] && b == [b[0]] + b[1..];
    }
  }

  lemma SameHead(a: seq<int>, b: seq<int>)
    requires DescendingInts(a) && DescendingInts(b)
    requires multiset(a) == multiset(b)
    ensures |a| == |b| && (|a| > 0 ==> a[0] == b[0])
  {
    assert |multiset(a)| == |multiset(b)|;
    if |a| > 0 {
      assert b[0] in multiset(b) && a[0] in multiset(a);
      HeadIsLargest(a, b[0]);
      HeadIsLargest(b, a[0]);
    }
  }

  /** Dropping the head keeps a sequence non-increasing and removes the
      head from its elements. */
  lemma DescendingTail(a: seq<int>)
    requires DescendingInts(a) && |a| > 0
    ensures DescendingInts(a[1..])
    ensures multiset(a[1..]) == multiset(a) - multiset{a[0]}
  {
    assert a == [a[0]] + a[1..];
  }

  lemma KeysByAppend<T>(a: seq<T>, b: seq<T>, key: T -> int)
    ensures KeysBy(a + b, key) == KeysBy(a, key) + KeysBy(b, key)
  {
  }

  /** The key column's multiset depends only on the multiset of elements. */
  lemma {:induction false} KeysByMultiset<T>(s: seq<T>, s': seq<T>, key: T -> int)
    requires multiset(s) == multiset(s')
    ensures multiset(KeysBy(s, key)) == multiset(KeysBy(s', key))
    decreases |s|
  {
    if |s| > 0 {
      var x := s[|s| - 1];
      assert x in multiset(s');
      var j :| 0 <= j < |s'| && s'[j] == x;
      var rest' := s'[..j] + s'[j + 1..];
      assert s' == s'[..j] + [x] + s'[j + 1..];
      assert s == s[..|s| - 1] + [x];
      assert multiset(s') == multiset(s'[..j]) + multiset{x} + multiset(s'[j + 1..]);
      assert multiset(rest') == multiset(s'[..j]) + multiset(s'[j + 1..]);
      assert multiset(s) == multiset(s[..|s| - 1]) + multiset{x};
      assert multiset(rest') == multiset(s') - multiset{x};
      assert multiset(s[..|s| - 1]) == multiset(s) - multiset{x};
      KeysByMultiset(s[..|s| - 1], rest', key);
      KeysByAppend(s[..|s| - 1], [x], key);
      KeysByAppend(s'[..j], [x], key);
      KeysByAppend(s'[..j] + [x], s'[j + 1..], key);
      KeysByAppend(s'[..j], s'[j + 1..], key);
    }
  }

  /** Sorting two arrangements of the same elements yields the same key column. */
  lemma SortByKeysDetermined<T>(s: seq<T>, s': seq<T>, key: T -> int)
    requires multiset(s) == multiset(s')
    ensures KeysBy(SortBy(s, key), key) == KeysBy(SortBy(s', key), key)
  {
    var r, r' := SortBy(s, key), SortBy(s', key);
    SortByOrdered(s, key);
    SortByOrdered(s', key);
    KeysByMultiset(r, r', key);
    assert DescendingInts(KeysBy(r, key)) && DescendingInts(KeysBy(r', key));
    SortedIntsUnique(KeysBy(r, key), KeysBy(r', key));
  }

  // ---------------------------------------------------------------------------
  // Standings: dict items sorted by value, highest first, ranked from 1

  function PairValue<K>(entry: (K, int)): int { entry.1 }

  /** sorted(table.items(), key=lambda x: x[1], reverse=True). */
  function Standings<K>(table: Dict<K, int>): (r: Dict<K, int>)
    ensures multiset(r) == multiset(table) && |r| == |table|
  {
    SortBy(table, PairValue)
  }

  /** The 1-based position of key t in a standings list (enumerate(...,
      start=1)); 0 for a key that is not listed. */
  function Rank<K(==)>(order: Dict<K, int>, t: K): (n: nat)
    ensures t in Keys(order) ==> 1 <= n <= |order| && order[n - 1].0 == t
  {
    if t in Keys(order) then KeyIndex(order, t) + 1 else 0
  }

  /** With distinct keys, the standings hold the same entries under the same
      keys: each key's entry (and so its value) is the one in the table. */
  lemma StandingsEntry<K>(table: Dict<K, int>, i: nat)
    requires DistinctKeys(table) && i < |table|
    ensures DistinctKeys(Standings(table))
    ensures table[i].0 in Keys(Standings(table))
    ensures Standings(table)[KeyIndex(Standings(table), table[i].0)] == table[i]
  {
    var r := Standings(table);
    DistinctSub(table, r);
    assert table[i] in multiset(r);
    var k :| 0 <= k < |r| && r[k] == table[i];
    assert r[k].0 == table[i].0;
    assert KeyIndex(r, table[i].0) == k;
  }

  /** Every key of the standings comes from the table. */
  lemma StandingsKey<K>(table: Dict<K, int>, k: nat)
    requires k < |Standings(table)|
    ensures Standings(table)[k] in table
  {
    assert Standings(table)[k] in multiset(table);
  }

  /** Every key of the table gets a rank in 1..N. */
  lemma RanksInRange<K>(table: Dict<K, int>, i: nat)
    requires DistinctKeys(table) && i < |table|
    ensures 1 <= Rank(Standings(table), table[i].0) <= |table|
  {
    StandingsEntry(table, i);
  }

  /** Different keys get different ranks. */
  lemma RanksDistinct<K>(table: Dict<K, int>, i: nat, j: nat)
    requires DistinctKeys(table) && i < |table| && j < |table| && i != j
    ensures Rank(Standings(table), table[i].0) != Rank(Standings(table), table[j].0)
  {
    var r := Standings(table);
    StandingsEntry(table, i);
    StandingsEntry(table, j);
    assert table[i].0 != table[j].0 by {
      if i < j { assert table[i].0 != table[j].0; } else { assert table[j].0 != table[i].0; }
    }
    var a, b := KeyIndex(r, table[i].0), KeyIndex(r, table[j].0);
    assert r[a].0 != r[b].0;
  }

  /** Every rank 1..N is taken, by the key listed at that position, and that
      key is one of the table's. */
  lemma RanksTaken<K>(table: Dict<K, int>, k: nat)
    requires DistinctKeys(table) && k < |table|
    ensures Standings(table)[k] in table
    ensures Rank(Standings(table), Standings(table)[k].0) == k + 1
  {
    var r := Standings(table);
    StandingsKey(table, k);
    DistinctSub(table, r);
    assert r[k].0 in Keys(r);
    assert KeyIndex(r, r[k].0) == k;
  }

  /** A strictly higher value ranks strictly better. */
  lemma HigherValueRanksBetter<K>(table: Dict<K, int>, i: nat, j: nat)
    requires DistinctKeys(table) && i < |table| && j < |table|
    requires table[i].1 > table[j].1
    ensures Rank(Standings(table), table[i].0) < Rank(Standings(table), table[j].0)
  {
    var r := Standings(table);
    StandingsEntry(table, i);
    StandingsEntry(table, j);
    SortByOrdered(table, PairValue);
    var a, b := KeyIndex(r, table[i].0), KeyIndex(r, table[j].0);
    OrderedIndices(r, PairValue, a, b);
  }

  lemma OrderedIndices<T>(s: seq<T>, key: T -> int, a: nat, b: nat)
    requires NonIncreasing(s, key) && a < |s| && b < |s| && key(s[a]) > key(s[b])
    ensures a < b
  {
  }

  /** Equal values keep the table's order (the sort is stable). */
  lemma TiesKeepOrder<K>(table: Dict<K, int>, i: nat, j: nat)
    requires DistinctKeys(table) && i < j < |table|
    requires table[i].1 == table[j].1
    ensures Rank(Standings(table), table[i].0) < Rank(Standings(table), table[j].0)
  {
    var r := Standings(table);
    var v := table[i].1;
    StandingsEntry(table, i);
    StandingsEntry(table, j);
    var a, b := KeyIndex(r, table[i].0), KeyIndex(r, table[j].0);
    SortByStable(table, PairValue, v);
    var m := Matching(table, PairValue, v);
    MatchingSub(table, PairValue, v);
    DistinctSub(table, m);
    MatchingAt(table, PairValue, v, i);
    MatchingAt(table, PairValue, v, j);
    MatchingGrows(table, PairValue, v, i, j);
    MatchingAt(r, PairValue, v, a);
    MatchingAt(r, PairValue, v, b);
    var pi, pj := |Matching(table[..i], PairValue, v)|, |Matching(table[..j], PairValue, v)|;
    var qa, qb := |Matching(r[..a], PairValue, v)|, |Matching(r[..b], PairValue, v)|;
    SameKeySamePosition(m, qa, pi);
    SameKeySamePosition(m, qb, pj);
    assert qa < qb;
    assert a != b;
    if b < a {
      MatchingGrows(r, PairValue, v, b, a);
      assert false;
    }
    assert Rank(r, table[i].0) == a + 1 && Rank(r, table[j].0) == b + 1;
  }

  // ---------------------------------------------------------------------------
  // sorted() of distinct strings

  ghost predicate Ascending(s: seq<string>)
  {
    forall i, j :: 0 <= i < j < |s| ==> StrLess(s[i], s[j])
  }

  function InsertStr(x: string, t: seq<string>): (r: seq<string>)
    requires Ascending(t) && x !in t
    ensures Ascending(r) && multiset(r) == multiset(t) + multiset{x}
  {
    if |t| == 0 || StrLess(x, t[0]) then
      BelowAll(x, t);
      [x] + t
    else
      StrLessTotal(x, t[0]);
      var rest := InsertStr(x, t[1..]);
      HeadBelowRest(x, t, rest);
      assert t == [t[0]] + t[1..];
      [t[0]] + rest
  }

  lemma BelowAll(x: string, t: seq<string>)
    requires Ascending(t) && (|t| == 0 || StrLess(x, t[0]))
    ensures forall j :: 0 <= j < |t| ==> StrLess(x, t[j])
  {
    forall j | 0 <= j < |t| ensures StrLess(x, t[j]) {
      if j > 0 { StrLessTransitive(x, t[0], t[j]); }
    }
  }

  lemma HeadBelowRest(x: string, t: seq<string>, rest: seq<string>)
    requires Ascending(t) && |t| > 0 && StrLess(t[0], x)
    requires multiset(rest) == multiset(t[1..]) + multiset{x}
    ensures forall j :: 0 <= j < |rest| ==> StrLess(t[0], rest[j])
  {
    forall j | 0 <= j < |rest| ensures StrLess(t[0], rest[j]) {
      assert rest[j] in multiset(rest);
      if rest[j] != x {
        assert rest[j] in multiset(t[1..]);
        var m :| 0 <= m < |t[1..]| && t[1..][m] == rest[j];
        assert t[m + 1] == rest[j];
      }
    }
  }

  ghost predicate NoRepeats(s: seq<string>)
  {
    forall i, j :: 0 <= i < j < |s| ==> s[i] != s[j]
  }

  lemma NoRepeatsTail(s: seq<string>)
    requires NoRepeats(s) && |s| > 0
    ensures NoRepeats(s[1..]) && s[0] !in multiset(s[1..])
  {
    assert forall i :: 0 <= i < |s| - 1 ==> s[1..][i] == s[i + 1];
  }

  /** sorted(names) for names without repeats. */
  function SortStrings(s: seq<string>): (r: seq<string>)
    requires NoRepeats(s)
    ensures Ascending(r) && multiset(r) == multiset(s)
  {
    if |s| == 0 then []
    else
      NoRepeatsTail(s);
      var rest := SortStrings(s[1..]);
      assert s == [s[0]] + s[1..];
      InsertStr(s[0], rest)
  }

  /** The distinct strings of s, in first-seen order. */
  function Dedup(s: seq<string>): (r: seq<string>)
    ensures NoRepeats(r) && forall x :: x in r <==> x in s
  {
    if |s| == 0 then []
    else
      var d := Dedup(s[..|s| - 1]);
      assert forall x :: x in s <==> x in s[..|s| - 1] || x == s[|s| - 1] by {
        assert s == s[..|s| - 1] + [s[|s| - 1]];
      }
      if s[|s| - 1] in d then d else d + [s[|s| - 1]]
  }

  /** sorted(set(s)). */
  function SortedSet(s: seq<string>): (r: seq<string>)
    ensures Ascending(r) && forall x :: x in r <==> x in s
  {
    var r := SortStrings(Dedup(s));
    assert forall x :: x in r <==> x in multiset(r);
    r
  }
}
