/**
 * Python's `sorted`: ascending order on strings (code-point lexicographic,
 * as Python compares `str`) and the stable descending sort by an integer
 * key that `sorted(xs, key=..., reverse=True)` performs.
 */
module Sorting {

  // ---------------------------------------------------------------------------
  // Strings in Python's order
  // ---------------------------------------------------------------------------

  /** `a <= b` on Python strings. */
  predicate LexLe(a: string, b: string)
    decreases |a|
  {
    |a| == 0 || (|b| > 0 && (a[0] < b[0] || (a[0] == b[0] && LexLe(a[1..], b[1..]))))
  }

  lemma {:induction false} LexRefl(a: string)
    ensures LexLe(a, a)
    decreases |a|
  {
    if |a| > 0 {
      LexRefl(a[1..]);
    }
  }

  lemma {:induction false} LexTotal(a: string, b: string)
    ensures LexLe(a, b) || LexLe(b, a)
    decreases |a|
  {
    if |a| > 0 && |b| > 0 && a[0] == b[0] {
      LexTotal(a[1..], b[1..]);
    }
  }

  lemma {:induction false} LexTrans(a: string, b: string, c: string)
    requires LexLe(a, b) && LexLe(b, c)
    ensures LexLe(a, c)
    decreases |a|
  {
    if |a| > 0 && a[0] == b[0] && b[0] == c[0] {
      LexTrans(a[1..], b[1..], c[1..]);
    }
  }

  lemma {:induction false} LexAntisym(a: string, b: string)
    requires LexLe(a, b) && LexLe(b, a)
    ensures a == b
    decreases |a|
  {
    if |a| > 0 {
      LexAntisym(a[1..], b[1..]);
      assert a == [a[0]] + a[1..] && b == [b[0]] + b[1..];
    }
  }

  predicate SortedStrings(xs: seq<string>) {
    forall i, j :: 0 <= i < j < |xs| ==> LexLe(xs[i], xs[j])
  }

  /** A string at most the head of a sorted sequence can go in front of it. */
  lemma ConsLeast(x: string, xs: seq<string>)
    requires SortedStrings(xs) && |xs| > 0 && LexLe(x, xs[0])
    ensures SortedStrings([x] + xs)
  {
    forall j | 0 <= j < |xs| ensures LexLe(x, xs[j]) {
      if j > 0 { LexTrans(x, xs[0], xs[j]); }
    }
  }

  /** The head of a sorted sequence can go back in front of a sorted rearrangement of its tail plus `x`. */
  lemma ConsHead(h: string, x: string, tail: seq<string>, rest: seq<string>)
    requires SortedStrings([h] + tail) && LexLe(h, x) && SortedStrings(rest)
    requires multiset(rest) == multiset(tail) + multiset{x}
    ensures SortedStrings([h] + rest)
  {
    forall j | 0 <= j < |rest| ensures LexLe(h, rest[j]) {
      assert rest[j] in multiset(rest);
      if rest[j] != x {
        assert rest[j] in multiset(tail);
        var i :| 0 <= i < |tail| && tail[i] == rest[j];
        assert ([h] + tail)[0] == h && ([h] + tail)[i + 1] == tail[i];
      }
    }
  }

  function InsertString(x: string, xs: seq<string>): (r: seq<string>)
    requires SortedStrings(xs)
    ensures SortedStrings(r)
    ensures multiset(r) == multiset(xs) + multiset{x}
    ensures |r| == |xs| + 1
  {
    if |xs| == 0 then [x]
    else if LexLe(x, xs[0]) then
      ConsLeast(x, xs);
      [x] + xs
    else
      LexTotal(x, xs[0]);
      assert xs == [xs[0]] + xs[1..];
      var rest := InsertString(x, xs[1..]);
      ConsHead(xs[0], x, xs[1..], rest);
      [xs[0]] + rest
  }

  /** `sorted(xs)` on strings. */
  function SortStrings(xs: seq<string>): (r: seq<string>)
    ensures SortedStrings(r)
    ensures multiset(r) == multiset(xs)
  {
    if |xs| == 0 then []
    else
      assert xs == [xs[0]] + xs[1..];
      InsertString(xs[0], SortStrings(xs[1..]))
  }

  /** The first element of a sorted sequence is below every element of it. */
  lemma SortedHeadLeast(a: seq<string>, x: string)
    requires SortedStrings(a) && x in multiset(a)
    ensures |a| > 0 && LexLe(a[0], x)
  {
    var i :| 0 <= i < |a| && a[i] == x;
    if i == 0 { LexRefl(x); }
  }

  lemma SortedTail(a: seq<string>)
    requires |a| > 0 && SortedStrings(a)
    ensures SortedStrings(a[1..]) && multiset(a[1..]) == multiset(a) - multiset{a[0]}
  {
    assert a == [a[0]] + a[1..];
  }

  /** There is only one sorted arrangement of a multiset of strings. */
  lemma {:induction false} SortedUnique(a: seq<string>, b: seq<string>)
    requires SortedStrings(a) && SortedStrings(b) && multiset(a) == multiset(b)
    ensures a == b
    decreases |a|
  {
    assert |a| == |multiset(a)| == |multiset(b)| == |b|;
    if |a| > 0 {
      SortedSameHead(a, b);
      SortedTail(a);
      SortedTail(b);
      SortedUnique(a[1..], b[1..]);
      assert a == [a[0]] + a[1..] && b == [b[0]] + b[1..];
    }
  }

  /** Two sorted arrangements of one multiset start alike. */
  lemma SortedSameHead(a: seq<string>, b: seq<string>)
    requires SortedStrings(a) && SortedStrings(b) && multiset(a) == multiset(b) && |a| > 0 && |b| > 0
    ensures a[0] == b[0]
  {
    assert a[0] in multiset(a);
    SortedHeadLeast(b, a[0]);
    assert b[0] in multiset(b);
    SortedHeadLeast(a, b[0]);
    LexAntisym(a[0], b[0]);
  }

  // ---------------------------------------------------------------------------
  // Stable descending sort by an integer key
  // ---------------------------------------------------------------------------

  predicate NonIncreasing<T>(xs: seq<T>, key: T -> int) {
    forall i, j :: 0 <= i < j < |xs| ==> key(xs[i]) >= key(xs[j])
  }

  /** The elements of `xs` whose key is `c`, in their order in `xs`. */
  function WithKey<T>(xs: seq<T>, key: T -> int, c: int): seq<T> {
    if |xs| == 0 then []
    else (if key(xs[0]) == c then [xs[0]] else []) + WithKey(xs[1..], key, c)
  }

  /** The head of a non-increasing sequence can go back in front of a rearrangement of its tail plus a smaller `x`. */
  lemma ConsHeadDesc<T>(h: T, x: T, tail: seq<T>, rest: seq<T>, key: T -> int)
    requires NonIncreasing([h] + tail, key) && key(h) > key(x) && NonIncreasing(rest, key)
    requires multiset(rest) == multiset(tail) + multiset{x}
    ensures NonIncreasing([h] + rest, key)
  {
    forall j | 0 <= j < |rest| ensures key(h) >= key(rest[j]) {
      assert rest[j] in multiset(rest);
      if rest[j] != x {
        assert rest[j] in multiset(tail);
        var i :| 0 <= i < |tail| && tail[i] == rest[j];
        assert ([h] + tail)[0] == h && ([h] + tail)[i + 1] == tail[i];
      }
    }
  }

  /** Inserts `x` in front of the first element whose key it matches or beats. */
  function InsertDesc<T>(x: T, xs: seq<T>, key: T -> int): (r: seq<T>)
    requires NonIncreasing(xs, key)
    ensures NonIncreasing(r, key)
    ensures multiset(r) == multiset(xs) + multiset{x}
    ensures |r| == |xs| + 1
  {
    if |xs| == 0 || key(x) >= key(xs[0]) then [x] + xs
    else
      assert xs == [xs[0]] + xs[1..];
      var rest := InsertDesc(x, xs[1..], key);
      ConsHeadDesc(xs[0], x, xs[1..], rest, key);
      [xs[0]] + rest
  }

  /** `sorted(xs, key=key, reverse=True)`. */
  function SortDesc<T>(xs: seq<T>, key: T -> int): (r: seq<T>)
    ensures NonIncreasing(r, key)
    ensures multiset(r) == multiset(xs)
    ensures |r| == |xs|
  {
    if |xs| == 0 then []
    else
      assert xs == [xs[0]] + xs[1..];
      InsertDesc(xs[0], SortDesc(xs[1..], key), key)
  }

  /** Inserting `x` puts it in front of everything with its key. */
  lemma {:induction false} InsertDescWithKey<T>(x: T, xs: seq<T>, key: T -> int, c: int)
    requires NonIncreasing(xs, key)
    ensures WithKey(InsertDesc(x, xs, key), key, c)
         == (if key(x) == c then [x] else []) + WithKey(xs, key, c)
    decreases |xs|
  {
    var r := InsertDesc(x, xs, key);
    if |xs| == 0 || key(x) >= key(xs[0]) {
      assert r == [x] + xs;
      WithKeyCons(x, xs, key, c);
    } else {
      var rest := InsertDesc(x, xs[1..], key);
      assert r == [xs[0]] + rest;
      assert xs == [xs[0]] + xs[1..];
      InsertDescWithKey(x, xs[1..], key, c);
      WithKeyBehind(xs[0], x, rest, xs[1..], key, c);
    }
  }

  /** An element with a larger key in front of both sides leaves `x`'s place in its key's run unchanged. */
  lemma WithKeyBehind<T>(h: T, x: T, rest: seq<T>, t: seq<T>, key: T -> int, c: int)
    requires key(h) > key(x)
    requires WithKey(rest, key, c) == (if key(x) == c then [x] else []) + WithKey(t, key, c)
    ensures WithKey([h] + rest, key, c) == (if key(x) == c then [x] else []) + WithKey([h] + t, key, c)
  {
    WithKeyCons(h, rest, key, c);
    WithKeyCons(h, t, key, c);
    if key(x) == c {
      assert key(h) != c;
      assert [] + WithKey(rest, key, c) == WithKey(rest, key, c);
      assert [] + WithKey(t, key, c) == WithKey(t, key, c);
    } else {
      assert [] + WithKey(rest, key, c) == WithKey(rest, key, c);
      assert [] + WithKey([h] + t, key, c) == WithKey([h] + t, key, c);
    }
  }

  /** An element in front adds itself to the front of its key's run, and nothing else. */
  lemma WithKeyCons<T>(h: T, t: seq<T>, key: T -> int, c: int)
    ensures WithKey([h] + t, key, c) == (if key(h) == c then [h] else []) + WithKey(t, key, c)
  {
    assert ([h] + t)[1..] == t;
  }

  /**
   * Stability: among elements with equal keys, the sorted sequence keeps
   * the order they had in the input.
   */
  lemma {:induction false} SortDescStable<T>(xs: seq<T>, key: T -> int, c: int)
    ensures WithKey(SortDesc(xs, key), key, c) == WithKey(xs, key, c)
    decreases |xs|
  {
    if |xs| > 0 {
      SortDescStable(xs[1..], key, c);
      InsertDescWithKey(xs[0], SortDesc(xs[1..], key), key, c);
    }
  }

  // ---------------------------------------------------------------------------
  // Rearrangements
  // ---------------------------------------------------------------------------

  /** Two positions of a sequence hold a sub-multiset of it. */
  lemma PairInMultiset<T>(s: seq<T>, a: nat, b: nat)
    requires a < b < |s|
    ensures multiset{s[a], s[b]} <= multiset(s)
  {
    assert s == s[..b] + [s[b]] + s[b + 1..];
    assert s[a] in multiset(s[..b]) by { assert s[..b][a] == s[a]; }
  }

  /** An element still present after taking out position `i` sits at another position. */
  lemma OtherPosition<T>(d: seq<T>, i: nat, y: T) returns (j: nat)
    requires i < |d| && y in multiset(d) - multiset{d[i]}
    ensures j < |d| && j != i && d[j] == y
  {
    var rest := d[..i] + d[i + 1..];
    assert d == d[..i] + [d[i]] + d[i + 1..];
    assert multiset(d) == multiset(d[..i]) + multiset{d[i]} + multiset(d[i + 1..]);
    assert y in multiset(rest);
    var k :| 0 <= k < |rest| && rest[k] == y;
    j := if k < i then k else k + 1;
  }

  /** A rearrangement of a sequence whose keys are pairwise distinct has pairwise distinct keys. */
  lemma DistinctKeysPermute<T, K>(d: seq<T>, s: seq<T>, key: T -> K)
    requires multiset(s) == multiset(d)
    requires forall i, j :: 0 <= i < j < |d| ==> key(d[i]) != key(d[j])
    ensures forall a, b :: 0 <= a < b < |s| ==> key(s[a]) != key(s[b])
  {
    forall a, b | 0 <= a < b < |s| ensures key(s[a]) != key(s[b]) {
      PairInMultiset(s, a, b);
      var x, y := s[a], s[b];
      assert x in multiset(d);
      var i :| 0 <= i < |d| && d[i] == x;
      assert y in multiset(d) - multiset{x};
      var j := OtherPosition(d, i, y);
      if i < j {
        assert key(d[i]) != key(d[j]);
      } else {
        assert key(d[j]) != key(d[i]);
      }
    }
  }
}
