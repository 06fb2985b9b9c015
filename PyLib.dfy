/**
  The handful of Python built-ins the scripts lean on, stated over Dafny
  values: optional results, insertion-ordered dicts, sum(), list slicing
  with Python's bound rules, str() of an integer, format padding and
  string comparison.
 */
module PyLib {

  datatype Option<T> = None | Some(value: T)

  // ---------------------------------------------------------------------------
  // sum()

  /** sum(s), accumulated left to right as the scripts' loops do. */
  function Sum(s: seq<int>): int
  {
    if |s| == 0 then 0 else Sum(s[..|s| - 1]) + s[|s| - 1]
  }

  lemma {:induction false} SumConcat(a: seq<int>, b: seq<int>)
    ensures Sum(a + b) == Sum(a) + Sum(b)
    decreases |b|
  {
    if |b| == 0 {
      assert a + b == a;
    } else {
      assert (a + b)[..|a + b| - 1] == a + b[..|b| - 1];
      SumConcat(a, b[..|b| - 1]);
    }
  }

  lemma SumSingle(x: int)
    ensures Sum([x]) == x
  {
    assert [x][..0] == [];
  }

  /** Replacing one element changes the sum by the difference. */
  lemma {:induction false} SumUpdate(s: seq<int>, i: nat, x: int)
    requires i < |s|
    ensures Sum(s[i := x]) == Sum(s) - s[i] + x
    decreases |s|
  {
    var t := s[i := x];
    if i < |s| - 1 {
      assert t[..|t| - 1] == s[..|s| - 1][i := x];
      SumUpdate(s[..|s| - 1], i, x);
    } else {
      assert t[..|t| - 1] == s[..|s| - 1];
    }
  }

  lemma SumFront(s: seq<int>)
    requires |s| > 0
    ensures Sum(s) == s[0] + Sum(s[1..])
  {
    assert s == [s[0]] + s[1..];
    SumConcat([s[0]], s[1..]);
  }

  // ---------------------------------------------------------------------------
  // dict: key/value pairs in insertion order

  type Dict<K, V> = seq<(K, V)>

  function Keys<K, V>(d: Dict<K, V>): (ks: seq<K>)
    ensures |ks| == |d| && forall i :: 0 <= i < |d| ==> ks[i] == d[i].0
  {
    seq(|d|, i requires 0 <= i < |d| => d[i].0)
  }

  function Values<K, V>(d: Dict<K, V>): (vs: seq<V>)
    ensures |vs| == |d| && forall i :: 0 <= i < |d| ==> vs[i] == d[i].1
  {
    seq(|d|, i requires 0 <= i < |d| => d[i].1)
  }

  /** A well-formed dict holds each key once. */
  ghost predicate DistinctKeys<K, V>(d: Dict<K, V>)
  {
    forall i, j :: 0 <= i < j < |d| ==> d[i].0 != d[j].0
  }

  /** Position of the first entry stored under k. */
  function KeyIndex<K(==), V>(d: Dict<K, V>, k: K): (i: nat)
    requires k in Keys(d)
    ensures i < |d| && d[i].0 == k && forall j :: 0 <= j < i ==> d[j].0 != k
  {
    if d[0].0 == k then 0 else 1 + KeyIndex(d[1..], k)
  }

  /** d.get(k): the value stored under k, if any. */
  function Lookup<K(==), V>(d: Dict<K, V>, k: K): (r: Option<V>)
    ensures r.None? <==> k !in Keys(d)
    ensures r.Some? ==> (k, r.value) in d
  {
    if k in Keys(d) then Some(d[KeyIndex(d, k)].1) else None
  }

  /** d[k] = v: overwrite in place when k is present, append otherwise. */
  function Assign<K(==), V>(d: Dict<K, V>, k: K, v: V): (r: Dict<K, V>)
    ensures Keys(r) == if k in Keys(d) then Keys(d) else Keys(d) + [k]
  {
    if k in Keys(d) then d[KeyIndex(d, k) := (k, v)] else d + [(k, v)]
  }

  lemma AssignLookup<K, V>(d: Dict<K, V>, k: K, v: V, k': K)
    ensures Lookup(Assign(d, k, v), k') == if k' == k then Some(v) else Lookup(d, k')
  {
    var r := Assign(d, k, v);
    if k in Keys(d) && k' in Keys(d) {
      var i := KeyIndex(d, k');
      assert forall j :: 0 <= j < |r| ==> r[j].0 == d[j].0;
      assert k' in Keys(r);
      var m := KeyIndex(r, k');
      assert m == i;
    } else if k' in Keys(d) {
      var i := KeyIndex(d, k');
      assert r[i].0 == k';
      assert k' in Keys(r);
      assert KeyIndex(r, k') == i;
    }
  }

  lemma AssignDistinct<K, V>(d: Dict<K, V>, k: K, v: V)
    requires DistinctKeys(d)
    ensures DistinctKeys(Assign(d, k, v))
  {
    var r := Assign(d, k, v);
    assert forall i :: 0 <= i < |r| ==> r[i].0 == Keys(r)[i];
  }

  /** Every entry after d[k] = v is the new one or an entry of d. */
  lemma AssignEntries<K, V>(d: Dict<K, V>, k: K, v: V, j: nat)
    requires j < |Assign(d, k, v)|
    ensures Assign(d, k, v)[j] == (k, v) || Assign(d, k, v)[j] in d
  {
  }

  lemma LookupDistinct<K, V>(d: Dict<K, V>, i: nat)
    requires DistinctKeys(d) && i < |d|
    ensures Lookup(d, d[i].0) == Some(d[i].1)
  {
    assert d[i].0 in Keys(d);
    assert KeyIndex(d, d[i].0) == i;
  }

  /** In a dict with distinct keys a key sits at one position only. */
  lemma SameKeySamePosition<K, V>(d: Dict<K, V>, x: nat, y: nat)
    requires DistinctKeys(d) && x < |d| && y < |d| && d[x].0 == d[y].0
    ensures x == y
  {
  }

  /** An entry occurs at most once in a dict with distinct keys. */
  lemma {:induction false} DistinctOnce<K, V>(d: Dict<K, V>, x: (K, V))
    requires DistinctKeys(d)
    ensures multiset(d)[x] <= 1
  {
    if |d| > 0 {
      var init := d[..|d| - 1];
      assert d == init + [d[|d| - 1]];
      DistinctOnce(init, x);
      if d[|d| - 1] == x {
        forall k | 0 <= k < |init|
          ensures init[k] != x
        {
          assert d[k].0 != d[|d| - 1].0;
        }
      }
    }
  }

  /** An entry found at two positions occurs twice. */
  lemma EntryTwice<T>(s: seq<T>, i: nat, j: nat)
    requires i < j < |s| && s[i] == s[j]
    ensures multiset(s)[s[i]] >= 2
  {
    assert s == s[..i] + [s[i]] + s[i + 1..j] + [s[j]] + s[j + 1..];
  }

  /** A dict whose entries are among those of a distinct-keyed dict (a
      reordering or a selection of them) has distinct keys too. */
  lemma DistinctSub<K, V>(a: Dict<K, V>, b: Dict<K, V>)
    requires multiset(b) <= multiset(a) && DistinctKeys(a)
    ensures DistinctKeys(b)
  {
    forall i, j | 0 <= i < j < |b|
      ensures b[i].0 != b[j].0
    {
      assert b[i] in multiset(a) && b[j] in multiset(a);
      var p :| 0 <= p < |a| && a[p] == b[i];
      var q :| 0 <= q < |a| && a[q] == b[j];
      if p == q {
        EntryTwice(b, i, j);
        DistinctOnce(a, b[i]);
      }
    }
  }

  // ---------------------------------------------------------------------------
  // list slicing

  /** How Python turns a slice bound into an index of a list of length n. */
  function SliceBound(i: int, n: nat): (b: nat)
    ensures b <= n
  {
    if i < 0 then (if i + n < 0 then 0 else i + n)
    else if i > n then n
    else i
  }

  /** s[start:stop] with Python's rules for negative and oversized bounds. */
  function PySlice<T>(s: seq<T>, start: int, stop: int): seq<T>
  {
    var lo, hi := SliceBound(start, |s|), SliceBound(stop, |s|);
    if lo < hi then s[lo..hi] else []
  }

  function Reverse<T>(s: seq<T>): (r: seq<T>)
    ensures |r| == |s| && forall k :: 0 <= k < |s| ==> r[k] == s[|s| - 1 - k]
  {
    if |s| == 0 then [] else Reverse(s[1..]) + [s[0]]
  }

  lemma ReverseMembers<T>(s: seq<T>)
    ensures forall x :: x in Reverse(s) <==> x in s
  {
    forall x | x in s
      ensures x in Reverse(s)
    {
      var k :| 0 <= k < |s| && s[k] == x;
      assert Reverse(s)[|s| - 1 - k] == x;
    }
  }

  function Min(a: int, b: int): int { if a <= b then a else b }
  function Max(a: int, b: int): int { if a >= b then a else b }
  function Abs(a: int): int { if a < 0 then -a else a }

  // ---------------------------------------------------------------------------
  // str(n) for an int

  function DigitChar(d: nat): char
    requires d < 10
  {
    "0123456789"[d]
  }

  function NatStr(n: nat): (s: string)
    ensures |s| >= 1
  {
    if n < 10 then [DigitChar(n)] else NatStr(n / 10) + [DigitChar(n % 10)]
  }

  /** str(n): decimal digits, a leading '-' for negative numbers. */
  function IntStr(n: int): (s: string)
    ensures |s| >= 1
  {
    if n < 0 then "-" + NatStr(-n) else NatStr(n)
  }

  function DigitValue(c: char): int
  {
    if '0' <= c <= '9' then c as int - '0' as int else 0
  }

  /** int(s) for a string of decimal digits with an optional leading '-'. */
  function ParseDigits(s: string): int
  {
    if |s| == 0 then 0 else ParseDigits(s[..|s| - 1]) * 10 + DigitValue(s[|s| - 1])
  }

  function ParseInt(s: string): int
  {
    if |s| > 0 && s[0] == '-' then -ParseDigits(s[1..]) else ParseDigits(s)
  }

  lemma {:induction false} ParseNatStr(n: nat)
    ensures ParseDigits(NatStr(n)) == n
    ensures NatStr(n)[0] != '-'
    decreases n
  {
    if n >= 10 {
      var s := NatStr(n / 10);
      ParseNatStr(n / 10);
      assert (s + [DigitChar(n % 10)])[..|s|] == s;
    }
  }

  /** int(str(n)) == n. */
  lemma IntStrRoundTrip(n: int)
    ensures ParseInt(IntStr(n)) == n
  {
    ParseNatStr(if n < 0 then -n else n);
    if n < 0 {
      assert ("-" + NatStr(-n))[1..] == NatStr(-n);
    }
  }

  /** Different numbers print differently. */
  lemma IntStrInjective(a: int, b: int)
    requires IntStr(a) == IntStr(b)
    ensures a == b
  {
    IntStrRoundTrip(a);
    IntStrRoundTrip(b);
  }

  lemma {:induction false} NatStrShort(n: nat)
    requires n < 10000
    ensures |NatStr(n)| <= 4
  {
    if n >= 10 {
      NatStrShort(n / 10);
      if n < 100 {
        assert |NatStr(n / 10)| == 1;
      } else if n < 1000 {
        NatStrBelow100(n / 10);
      } else {
        NatStrBelow1000(n / 10);
      }
    }
  }

  lemma NatStrBelow100(n: nat)
    requires n < 100
    ensures |NatStr(n)| <= 2
  {
  }

  lemma NatStrBelow1000(n: nat)
    requires n < 1000
    ensures |NatStr(n)| <= 3
  {
    if n >= 10 {
      NatStrBelow100(n / 10);
    }
  }

  // ---------------------------------------------------------------------------
  // format padding: f"{s:<w}" and f"{s:>w}"

  /** n copies of c ("-" * n in Python); empty for n <= 0. */
  function Fill(c: char, n: int): (s: string)
    ensures |s| == Max(0, n) && forall i :: 0 <= i < |s| ==> s[i] == c
  {
    if n <= 0 then "" else Fill(c, n - 1) + [c]
  }

  /** f"{s:<w}": s followed by spaces up to width w; never truncates. */
  function PadRight(s: string, w: int): (r: string)
    ensures |r| == Max(|s|, w) && r[..|s|] == s
  {
    s + Fill(' ', w - |s|)
  }

  /** f"{s:>w}": spaces up to width w, then s; never truncates. */
  function PadLeft(s: string, w: int): (r: string)
    ensures |r| == Max(|s|, w) && r[|r| - |s|..] == s
  {
    Fill(' ', w - |s|) + s
  }

  // ---------------------------------------------------------------------------
  // string comparison: Python orders str by code point, a prefix first

  predicate StrLess(a: string, b: string)
  {
    |b| > 0 && (|a| == 0 || a[0] < b[0] || (a[0] == b[0] && StrLess(a[1..], b[1..])))
  }

  lemma {:induction false} StrLessIrreflexive(a: string)
    ensures !StrLess(a, a)
  {
    if |a| > 0 {
      StrLessIrreflexive(a[1..]);
    }
  }

  lemma {:induction false} StrLessTotal(a: string, b: string)
    ensures a == b || StrLess(a, b) || StrLess(b, a)
  {
    if |a| > 0 && |b| > 0 && a[0] == b[0] {
      StrLessTotal(a[1..], b[1..]);
      if a[1..] == b[1..] {
        assert a == [a[0]] + a[1..] && b == [b[0]] + b[1..];
      }
    }
  }

  lemma {:induction false} StrLessTransitive(a: string, b: string, c: string)
    requires StrLess(a, b) && StrLess(b, c)
    ensures StrLess(a, c)
  {
    if |a| > 0 && a[0] == b[0] && b[0] == c[0] {
      StrLessTransitive(a[1..], b[1..], c[1..]);
    }
  }
}
