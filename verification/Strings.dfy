/**
 * Python `str` operations the modelled code relies on, written over Dafny's
 * `string` (a `seq<char>` of code points): substring search, `split(sep)`,
 * `sep.join`, `replace`, `strip`, `isdigit`, `int(...)`, `str(n)`,
 * `split()` on whitespace and slicing with negative bounds.
 */
module Strings {
  import opened Outcomes

  // ---------------------------------------------------------------------------
  // Substrings
  // ---------------------------------------------------------------------------

  /** `s.startswith(p)` */
  predicate StartsWith(s: string, p: string) {
    |p| <= |s| && s[..|p|] == p
  }

  /** `s.endswith(p)` */
  predicate EndsWith(s: string, p: string) {
    |p| <= |s| && s[|s| - |p|..] == p
  }

  /** `sub` occurs in `s` starting at index `i`. */
  predicate OccursAt(s: string, sub: string, i: int) {
    0 <= i && i + |sub| <= |s| && s[i..i + |sub|] == sub
  }

  /** `sub in s` */
  predicate Contains(s: string, sub: string) {
    exists i :: 0 <= i <= |s| - |sub| && OccursAt(s, sub, i)
  }

  /** An occurrence inside a slice is an occurrence in the whole string. */
  lemma ContainsSlice(s: string, sub: string, lo: nat, hi: nat)
    requires lo <= hi <= |s|
    requires Contains(s[lo..hi], sub)
    ensures Contains(s, sub)
  {
    var i :| 0 <= i <= |s[lo..hi]| - |sub| && OccursAt(s[lo..hi], sub, i);
    forall t | 0 <= t < |sub| ensures s[lo + i + t] == sub[t] {
      assert s[lo..hi][i..i + |sub|][t] == sub[t];
    }
    assert OccursAt(s, sub, lo + i);
  }

  /** A string that occurs inside `t` occurs inside anything `t` occurs in. */
  lemma ContainsTrans(s: string, t: string, sub: string)
    requires Contains(s, t) && Contains(t, sub)
    ensures Contains(s, sub)
  {
    var i :| 0 <= i <= |s| - |t| && OccursAt(s, t, i);
    ContainsSlice(s, sub, i, i + |t|);
  }

  /** Past the end of `a`, `a + b` reads `b`. */
  lemma IndexPastPrefix<T>(a: seq<T>, b: seq<T>, k: nat)
    requires |a| <= k < |a| + |b|
    ensures (a + b)[k] == b[k - |a|]
  {
  }

  /** A slice of a prefix is the same slice of the whole. */
  lemma PrefixSlice(s: string, p: string, lo: nat, hi: nat)
    requires |p| <= |s| && p == s[..|p|] && lo <= hi <= |p|
    ensures p[lo..hi] == s[lo..hi]
  {
  }

  /** A character missing from `a + m + b` is missing from `a` and from `b`. */
  lemma AbsentFromParts(a: string, m: string, b: string, c: char)
    requires c !in a + m + b
    ensures c !in a && c !in b
  {
    var s := a + m + b;
    forall i | 0 <= i < |a| ensures a[i] != c { assert a[i] == s[i]; }
    forall i | 0 <= i < |b| ensures b[i] != c { assert b[i] == s[|a| + |m| + i]; }
  }

  /** A text pieced together from seven parts contains its second, fourth and sixth. */
  lemma ContainsAlternateParts(a: string, b: string, c: string, d: string, e: string, f: string, g: string)
    ensures Contains(a + b + c + d + e + f + g, b)
    ensures Contains(a + b + c + d + e + f + g, d)
    ensures Contains(a + b + c + d + e + f + g, f)
  {
    var r := a + b + c + d + e + f + g;
    var k := |a + b + c|;
    var m := k + |d| + |e|;
    assert r[|a|..|a| + |b|] == b;
    assert OccursAt(r, b, |a|);
    assert r[k..k + |d|] == d;
    assert OccursAt(r, d, k);
    assert r[m..m + |f|] == f;
    assert OccursAt(r, f, m);
  }

  /** The first index at or after `from` where `sub` occurs. */
  function IndexFrom(s: string, sub: string, from: nat): (r: Option<nat>)
    requires from <= |s|
    ensures r.Some? ==> from <= r.value && OccursAt(s, sub, r.value)
    ensures r.Some? ==> forall j :: from <= j < r.value ==> !OccursAt(s, sub, j)
    ensures r.None? ==> forall j :: from <= j ==> !OccursAt(s, sub, j)
    decreases |s| - from
  {
    if from + |sub| > |s| then None
    else if s[from..from + |sub|] == sub then Some(from)
    else if from == |s| then None
    else IndexFrom(s, sub, from + 1)
  }

  /** `s.find(sub)` as an option: the first occurrence of `sub`, if any. */
  function IndexOf(s: string, sub: string): (r: Option<nat>)
    ensures r.Some? <==> Contains(s, sub)
    ensures r.Some? ==> OccursAt(s, sub, r.value)
    ensures r.Some? ==> forall j :: 0 <= j < r.value ==> !OccursAt(s, sub, j)
  {
    IndexFrom(s, sub, 0)
  }

  /** No occurrence of `sub` starts before index `i` of `s`. */
  lemma NoEarlierOccurrence(s: string, sub: string, i: nat)
    requires i <= |s| && |sub| > 0
    requires forall j :: 0 <= j < i ==> !OccursAt(s, sub, j)
    ensures !Contains(s[..i], sub)
  {
    forall j | 0 <= j <= i - |sub|
      ensures !OccursAt(s[..i], sub, j)
    {
      assert s[..i][j..j + |sub|] == s[j..j + |sub|];
      assert !OccursAt(s, sub, j);
    }
  }

  /** For a one-character pattern, `[c] in s` is plain membership. */
  lemma ContainsChar(s: string, c: char)
    ensures Contains(s, [c]) <==> c in s
  {
    if c in s {
      var i :| 0 <= i < |s| && s[i] == c;
      assert s[i..i + 1] == [c];
      assert OccursAt(s, [c], i);
    }
    if Contains(s, [c]) {
      var i :| 0 <= i <= |s| - 1 && OccursAt(s, [c], i);
      assert s[i] == s[i..i + 1][0];
    }
  }

  /** The first `c` of `a + [c] + b` is the one after `a` when `a` has none. */
  lemma FirstChar(a: string, c: char, b: string)
    requires c !in a
    ensures IndexOf(a + [c] + b, [c]) == Some(|a|)
  {
    var s := a + [c] + b;
    assert s[|a|..|a| + 1] == [c];
    assert OccursAt(s, [c], |a|);
    forall j | 0 <= j < |a| ensures !OccursAt(s, [c], j) {
      assert s[j] == a[j];
    }
  }

  // ---------------------------------------------------------------------------
  // split / join
  // ---------------------------------------------------------------------------

  /** The last index of `c` in `s`, if any. */
  function LastIndexOfChar(s: string, c: char): (r: Option<nat>)
    ensures r.Some? ==> r.value < |s| && s[r.value] == c
    ensures r.Some? ==> forall i :: r.value < i < |s| ==> s[i] != c
    ensures r.None? ==> c !in s
  {
    if |s| == 0 then None
    else if s[|s| - 1] == c then Some(|s| - 1)
    else LastIndexOfChar(s[..|s| - 1], c)
  }

  /** `sep.join(parts)` */
  function Join(parts: seq<string>, sep: string): string
  {
    if |parts| == 0 then ""
    else if |parts| == 1 then parts[0]
    else parts[0] + sep + Join(parts[1..], sep)
  }

  /**
   * `s.split(sep)` for a non-empty separator: the pieces between the
   * non-overlapping occurrences of `sep`, scanned from the left.
   */
  function Split(s: string, sep: string): (parts: seq<string>)
    requires |sep| > 0
    ensures |parts| >= 1
    decreases |s|
  {
    match IndexOf(s, sep)
    case None => [s]
    case Some(i) => [s[..i]] + Split(s[i + |sep|..], sep)
  }

  /** `s.split(sep)[0]` and `s.split(sep, 1)[0]`: `s` up to the first `sep`, or all of `s`. */
  function BeforeFirst(s: string, sep: string): (r: string)
    ensures |r| <= |s| && r == s[..|r|]
  {
    match IndexOf(s, sep)
    case Some(i) => s[..i]
    case None => s
  }

  /** The text after the first `sep`, or nothing when `sep` is absent. */
  function AfterFirst(s: string, sep: string): (r: string)
  {
    match IndexOf(s, sep)
    case Some(i) => s[i + |sep|..]
    case None => ""
  }

  /** The first piece of a split is the text before the first separator. */
  lemma SplitHead(s: string, sep: string)
    requires |sep| > 0
    ensures Split(s, sep)[0] == BeforeFirst(s, sep)
  {
  }

  /** With the separator present, there is a second piece: what follows the first separator, up to the next. */
  lemma SplitSecond(s: string, sep: string)
    requires |sep| > 0 && Contains(s, sep)
    ensures |Split(s, sep)| >= 2
    ensures Split(s, sep)[1] == BeforeFirst(AfterFirst(s, sep), sep)
  {
    var i := IndexOf(s, sep).value;
    var rest := s[i + |sep|..];
    assert AfterFirst(s, sep) == rest;
    assert Split(s, sep) == [s[..i]] + Split(rest, sep);
    SplitHead(rest, sep);
  }

  /** Nothing before the first separator is a separator. */
  lemma BeforeFirstClean(s: string, sep: string)
    requires |sep| > 0
    ensures !Contains(BeforeFirst(s, sep), sep)
  {
    match IndexOf(s, sep)
    case Some(i) => NoEarlierOccurrence(s, sep, i);
    case None =>
  }

  /**
   * The pieces of `s.split(sep)` contain no separator and join back, with
   * the separator between them, to `s`.
   */
  lemma {:induction false} SplitPieces(s: string, sep: string)
    requires |sep| > 0
    ensures forall k :: 0 <= k < |Split(s, sep)| ==> !Contains(Split(s, sep)[k], sep)
    ensures Join(Split(s, sep), sep) == s
    decreases |s|
  {
    match IndexOf(s, sep)
    case None =>
      assert Split(s, sep) == [s];
    case Some(i) =>
      var rest := s[i + |sep|..];
      var tail := Split(rest, sep);
      var parts := Split(s, sep);
      NoEarlierOccurrence(s, sep, i);
      SplitPieces(rest, sep);
      assert parts == [s[..i]] + tail;
      assert Join(parts, sep) == s[..i] + sep + Join(tail, sep);
      assert s == s[..i] + sep + rest;
      forall k | 0 <= k < |parts| ensures !Contains(parts[k], sep) {
        if k > 0 { assert parts[k] == tail[k - 1]; }
      }
  }

  /** `s.split(sep, 1)`: at most one cut, at the first occurrence. */
  function SplitOnce(s: string, sep: string): (parts: seq<string>)
    requires |sep| > 0
    ensures |parts| == 1 <==> !Contains(s, sep)
    ensures |parts| == 1 ==> parts[0] == s
    ensures |parts| == 2 ==> parts[0] + sep + parts[1] == s && !Contains(parts[0], sep)
    ensures 1 <= |parts| <= 2
  {
    match IndexOf(s, sep)
    case None => [s]
    case Some(i) =>
      NoEarlierOccurrence(s, sep, i);
      assert s == s[..i] + sep + s[i + |sep|..];
      [s[..i], s[i + |sep|..]]
  }

  /** `(a + c + b).split(c, 1)` cuts after `a` when `a` has no `c`. */
  lemma SplitOnceChar(a: string, c: char, b: string)
    requires c !in a
    ensures SplitOnce(a + [c] + b, [c]) == [a, b]
  {
    var s := a + [c] + b;
    FirstChar(a, c, b);
    assert s[..|a|] == a;
    assert s[|a| + 1..] == b;
  }

  /** A string without `c` is not cut by `split(c, 1)`. */
  lemma SplitOnceAbsent(s: string, c: char)
    requires c !in s
    ensures SplitOnce(s, [c]) == [s]
  {
    ContainsChar(s, c);
  }

  /** A string without the separator splits into itself alone. */
  lemma SplitNoSep(s: string, sep: string)
    requires |sep| > 0 && !Contains(s, sep)
    ensures Split(s, sep) == [s]
  {
  }

  /**
   * Splitting `a + sep + b` cuts first right after `a`, provided no
   * occurrence of `sep` starts inside `a` (for a one-character separator:
   * `a` does not contain it).
   */
  lemma {:induction false} SplitConcat(a: string, sep: string, b: string)
    requires |sep| > 0
    requires !Contains(a + sep[..|sep| - 1], sep)
    ensures Split(a + sep + b, sep) == [a] + Split(b, sep)
  {
    var s := a + sep + b;
    var t := a + sep[..|sep| - 1];
    assert OccursAt(s, sep, |a|) by { assert s[|a|..|a| + |sep|] == sep; }
    assert s[..|t|] == t by {
      forall i | 0 <= i < |t| ensures s[i] == t[i] {
        if i >= |a| { assert t[i] == sep[..|sep| - 1][i - |a|]; }
      }
    }
    forall j | 0 <= j < |a|
      ensures !OccursAt(s, sep, j)
    {
      if j + |sep| <= |s| {
        PrefixSlice(s, t, j, j + |sep|);
        assert !OccursAt(t, sep, j);
      }
    }
    assert IndexOf(s, sep) == Some(|a|);
    assert s[..|a|] == a;
    assert s[|a| + |sep|..] == b;
  }

  /** With a one-character separator, the first cut is at its first occurrence. */
  lemma SplitCutChar(a: string, c: char, b: string)
    requires c !in a
    ensures Split(a + [c] + b, [c]) == [a] + Split(b, [c])
  {
    ContainsChar(a, c);
    assert a + [c][..0] == a;
    SplitConcat(a, [c], b);
  }

  /** A string containing `c` is its first-occurrence prefix, `c`, and the rest. */
  lemma CutFirstChar(a: string, c: char) returns (a1: string, a2: string)
    requires c in a
    ensures a == a1 + [c] + a2 && c !in a1 && |a2| < |a|
  {
    ContainsChar(a, c);
    var i := IndexOf(a, [c]).value;
    a1 := a[..i];
    a2 := a[i + 1..];
    assert a == a1 + [c] + a2 by { assert a[i..i + 1] == [c]; }
    NoEarlierOccurrence(a, [c], i);
    ContainsChar(a1, c);
  }

  /** A one-character separator splits a concatenation piece by piece. */
  lemma {:induction false} SplitAppendChar(a: string, c: char, b: string)
    ensures Split(a + [c] + b, [c]) == Split(a, [c]) + Split(b, [c])
    decreases |a|
  {
    if c !in a {
      SplitCutChar(a, c, b);
      ContainsChar(a, c);
      SplitNoSep(a, [c]);
    } else {
      var a1, a2 := CutFirstChar(a, c);
      SplitAppendChar(a2, c, b);
      SplitAppendStep(a1, a2, c, b);
      Reassociate(a1, [c], a2, [c], b);
    }
  }

  lemma Reassociate<T>(p: seq<T>, q: seq<T>, r: seq<T>, s: seq<T>, t: seq<T>)
    ensures p + q + r + s + t == p + q + (r + s + t)
  {
  }

  /** Equal strings with a common prefix agree after it. */
  lemma CancelPrefix(a: string, b: string, c: string)
    requires a + b == a + c
    ensures b == c
  {
    assert b == (a + b)[|a|..];
    assert c == (a + c)[|a|..];
  }

  /** The inductive step of `SplitAppendChar`, once the tail is known to split piecewise. */
  lemma SplitAppendStep(a1: string, a2: string, c: char, b: string)
    requires c !in a1
    requires Split(a2 + [c] + b, [c]) == Split(a2, [c]) + Split(b, [c])
    ensures Split(a1 + [c] + (a2 + [c] + b), [c]) == Split(a1 + [c] + a2, [c]) + Split(b, [c])
  {
    var t := a2 + [c] + b;
    SplitCutChar(a1, c, t);
    SplitCutChar(a1, c, a2);
    AppendAssociates([a1], Split(a2, [c]), Split(b, [c]));
  }

  /** A string that starts with `p + q` starts with `p`. */
  lemma StartsWithShorter(s: string, p: string, q: string)
    requires StartsWith(s, p + q)
    ensures StartsWith(s, p)
  {
    assert s[..|p|] == (p + q)[..|p|];
  }

  /** Concatenation is associative. */
  lemma AppendAssociates<T>(a: seq<T>, b: seq<T>, c: seq<T>)
    ensures a + (b + c) == a + b + c
  {
  }

  /** A string without `c` is a single piece. */
  lemma SplitCharAbsent(s: string, c: char)
    requires c !in s
    ensures Split(s, [c]) == [s]
  {
    ContainsChar(s, c);
    SplitNoSep(s, [c]);
  }

  /** No piece of `s.split(c)` contains `c`. */
  lemma SplitCharPieces(s: string, c: char)
    ensures forall k :: 0 <= k < |Split(s, [c])| ==> c !in Split(s, [c])[k]
  {
    SplitPieces(s, [c]);
    forall k | 0 <= k < |Split(s, [c])| ensures c !in Split(s, [c])[k] {
      ContainsChar(Split(s, [c])[k], c);
    }
  }

  /** `Split` inverts `Join` when no piece hides a separator. */
  lemma {:induction false} SplitJoin(parts: seq<string>, sep: string)
    requires |sep| > 0 && |parts| >= 1
    requires forall k :: 0 <= k < |parts| ==> !Contains(parts[k] + sep[..|sep| - 1], sep)
    ensures Split(Join(parts, sep), sep) == parts
    decreases |parts|
  {
    if |parts| == 1 {
      if Contains(parts[0], sep) {
        assert (parts[0] + sep[..|sep| - 1])[0..|parts[0]|] == parts[0];
        ContainsSlice(parts[0] + sep[..|sep| - 1], sep, 0, |parts[0]|);
      }
      SplitNoSep(parts[0], sep);
    } else {
      SplitJoin(parts[1..], sep);
      SplitConcat(parts[0], sep, Join(parts[1..], sep));
    }
  }

  /** Rejoining a prefix of the pieces gives a prefix of the original string. */
  lemma {:induction false} JoinPrefixOfSplit(parts: seq<string>, sep: string, k: nat)
    requires 1 <= k <= |parts|
    ensures StartsWith(Join(parts, sep), Join(parts[..k], sep))
    decreases k
  {
    if k == 1 {
      assert parts[..1] == [parts[0]];
    } else {
      JoinPrefixOfSplit(parts[1..], sep, k - 1);
      assert parts[..k][1..] == parts[1..][..k - 1];
    }
  }

  // ---------------------------------------------------------------------------
  // replace
  // ---------------------------------------------------------------------------

  /** `s.replace(pat, rep)` for non-empty `pat`: left-to-right, non-overlapping. */
  function ReplaceAll(s: string, pat: string, rep: string): string
    requires |pat| > 0
    decreases |s|
  {
    if |s| == 0 then ""
    else if StartsWith(s, pat) then rep + ReplaceAll(s[|pat|..], pat, rep)
    else [s[0]] + ReplaceAll(s[1..], pat, rep)
  }

  /** Replacing a string that does not occur changes nothing. */
  lemma {:induction false} ReplaceAbsent(s: string, pat: string, rep: string)
    requires |pat| > 0 && !Contains(s, pat)
    ensures ReplaceAll(s, pat, rep) == s
    decreases |s|
  {
    if |s| > 0 {
      assert !OccursAt(s, pat, 0);
      if Contains(s[1..], pat) {
        assert s[1..|s|] == s[1..];
        ContainsSlice(s, pat, 1, |s|);
        assert false;
      }
      ReplaceAbsent(s[1..], pat, rep);
    }
  }

  /** If `pat` occurs at all, at least one replacement happens. */
  lemma {:induction false} ReplaceIntroduces(s: string, pat: string, rep: string)
    requires |pat| > 0 && Contains(s, pat)
    ensures Contains(ReplaceAll(s, pat, rep), rep)
    decreases |s|
  {
    var r := ReplaceAll(s, pat, rep);
    if StartsWith(s, pat) {
      assert OccursAt(r, rep, 0);
    } else {
      var i :| 0 <= i <= |s| - |pat| && OccursAt(s, pat, i);
      assert i > 0;
      assert OccursAt(s[1..], pat, i - 1) by {
        assert s[1..][i - 1..i - 1 + |pat|] == s[i..i + |pat|];
      }
      ReplaceIntroduces(s[1..], pat, rep);
      var rest := ReplaceAll(s[1..], pat, rep);
      assert r == [s[0]] + rest;
      ContainsSlice(r, rep, 1, |r|) by { assert r[1..|r|] == rest; }
    }
  }

  /** `w` has no border: no proper non-empty prefix of it is also a suffix. */
  predicate Borderless(w: string) {
    forall k :: 0 < k < |w| ==> w[..k] != w[|w| - k..]
  }

  /** A string whose first character does not come back later has no border. */
  lemma LeadUniqueBorderless(w: string)
    requires forall i :: 0 < i < |w| ==> w[i] != w[0]
    ensures Borderless(w)
  {
    forall k | 0 < k < |w|
      ensures w[..k] != w[|w| - k..]
    {
      assert w[..k][0] == w[0];
      assert w[|w| - k..][0] == w[|w| - k];
    }
  }

  /** An occurrence of `pat` that starts inside `p` and runs into a trailing `pat` shows a border. */
  lemma OverlapIsBorder(p: string, pat: string)
    requires 0 < |p| < |pat| && StartsWith(p + pat, pat)
    ensures !Borderless(pat)
  {
    var s := p + pat;
    var k := |pat| - |p|;
    forall t | 0 <= t < k ensures pat[t] == pat[|p| + t] {
      assert s[|p| + t] == pat[t];
      assert s[..|pat|][|p| + t] == pat[|p| + t];
    }
    assert pat[..k] == pat[|pat| - k..];
  }

  /**
   * For a borderless pattern such as ".txt", a trailing occurrence is
   * always one of the occurrences replaced.
   */
  lemma {:induction false} ReplaceTrailing(p: string, pat: string, rep: string)
    requires |pat| > 0 && Borderless(pat)
    ensures ReplaceAll(p + pat, pat, rep) == ReplaceAll(p, pat, rep) + rep
    decreases |p|
  {
    var s := p + pat;
    if |p| == 0 {
      assert s == pat;
      assert s[|pat|..] == "";
    } else if StartsWith(s, pat) {
      if |p| < |pat| {
        OverlapIsBorder(p, pat);
        assert false;
      }
      assert StartsWith(p, pat) by { assert p[..|pat|] == s[..|pat|]; }
      ReplaceTrailing(p[|pat|..], pat, rep);
      assert s[|pat|..] == p[|pat|..] + pat;
    } else {
      if |p| >= |pat| {
        assert !StartsWith(p, pat) by { assert p[..|pat|] == s[..|pat|]; }
      } else {
        assert !StartsWith(p, pat);
      }
      ReplaceTrailing(p[1..], pat, rep);
      assert s[1..] == p[1..] + pat;
    }
  }

  /** A string whose characters all differ from the first of `pat` holds no `pat`. */
  lemma FirstCharAbsent(s: string, pat: string)
    requires |pat| > 0 && pat[0] !in s
    ensures !Contains(s, pat)
  {
    forall i | 0 <= i <= |s| - |pat|
      ensures !OccursAt(s, pat, i)
    {
      assert s[i..i + |pat|][0] == s[i];
    }
  }

  /**
   * A single placeholder is replaced in place: when no occurrence can start
   * in `head` and none lies in `tail`, only the middle `pat` is replaced.
   */
  lemma {:induction false} ReplaceSingle(head: string, pat: string, tail: string, rep: string)
    requires |pat| > 0 && pat[0] !in head && !Contains(tail, pat)
    ensures ReplaceAll(head + pat + tail, pat, rep) == head + rep + tail
    decreases |head|
  {
    var s := head + pat + tail;
    if |head| == 0 {
      assert s == pat + tail;
      assert s[|pat|..] == tail;
      ReplaceAbsent(tail, pat, rep);
    } else {
      assert s[0] == head[0];
      assert |pat| <= |s| ==> s[..|pat|][0] == s[0];
      ReplaceSingle(head[1..], pat, tail, rep);
      assert s[1..] == head[1..] + pat + tail;
    }
  }

  /** For a borderless `sep`, the text before a trailing `sep` is recovered by `split(sep)[0]`. */
  lemma BeforeFirstTrailing(p: string, sep: string)
    requires |sep| > 0 && Borderless(sep) && !Contains(p, sep)
    ensures BeforeFirst(p + sep, sep) == p
  {
    var s := p + sep;
    assert OccursAt(s, sep, |p|);
    forall j | 0 <= j < |p|
      ensures !OccursAt(s, sep, j)
    {
      if j + |sep| <= |p| {
        assert s[j..j + |sep|] == p[j..j + |sep|];
        assert !OccursAt(p, sep, j);
      } else if OccursAt(s, sep, j) {
        assert s[j..] == p[j..] + sep;
        assert (p[j..] + sep)[..|sep|] == s[j..j + |sep|];
        OverlapIsBorder(p[j..], sep);
        assert false;
      }
    }
    var v := IndexOf(s, sep).value;
    assert v == |p|;
    assert s[..|p|] == p;
  }

  /** A one-character string `[c]` is replaced character by character. */
  function MapChar(s: string, c: char, d: char): (r: string)
    ensures |r| == |s|
    ensures forall i :: 0 <= i < |s| ==> r[i] == (if s[i] == c then d else s[i])
  {
    seq(|s|, i requires 0 <= i < |s| => if s[i] == c then d else s[i])
  }

  /** Replacing a single character with a single character is a per-character map. */
  lemma {:induction false} ReplaceChar(s: string, c: char, d: char)
    ensures ReplaceAll(s, [c], [d]) == MapChar(s, c, d)
    decreases |s|
  {
    if |s| > 0 {
      ReplaceChar(s[1..], c, d);
      if s[0] == c {
        assert StartsWith(s, [c]);
      } else {
        assert !StartsWith(s, [c]);
      }
      assert s[|[c]|..] == s[1..];
    }
  }

  // ---------------------------------------------------------------------------
  // strip
  // ---------------------------------------------------------------------------

  /** `c.isspace()`: the characters Python's argument-less `strip` and `split` treat as whitespace. */
  predicate IsSpace(c: char) {
    || '\t' <= c <= '\r'                    // tab, line feed, vertical tab, form feed, carriage return
    || '\U{001C}' <= c <= ' '                // the four separators U+001C..U+001F and space
    || c == '\U{0085}' || c == '\U{00A0}' || c == '\U{1680}'
    || '\U{2000}' <= c <= '\U{200A}'
    || c == '\U{2028}' || c == '\U{2029}' || c == '\U{202F}' || c == '\U{205F}' || c == '\U{3000}'
  }

  /** `s.lstrip()`: drops the leading whitespace and nothing else. */
  function LStrip(s: string): (r: string)
    ensures |r| <= |s| && r == s[|s| - |r|..]
    ensures |r| == 0 || !IsSpace(r[0])
    ensures forall i :: 0 <= i < |s| - |r| ==> IsSpace(s[i])
    decreases |s|
  {
    if |s| > 0 && IsSpace(s[0]) then LStrip(s[1..]) else s
  }

  /** `s.rstrip()`: drops the trailing whitespace and nothing else. */
  function RStrip(s: string): (r: string)
    ensures |r| <= |s| && r == s[..|r|]
    ensures |r| == 0 || !IsSpace(r[|r| - 1])
    ensures forall i :: |r| <= i < |s| ==> IsSpace(s[i])
    decreases |s|
  {
    if |s| > 0 && IsSpace(s[|s| - 1]) then RStrip(s[..|s| - 1]) else s
  }

  /** `s.strip()` */
  function Strip(s: string): string {
    RStrip(LStrip(s))
  }

  /** Where `strip`'s result starts in its input. */
  function StripStart(s: string): nat {
    |s| - |LStrip(s)|
  }

  /** `strip`'s result is the slice of its input from `StripStart`. */
  lemma StripSlice(s: string)
    ensures StripStart(s) + |Strip(s)| <= |s|
    ensures Strip(s) == s[StripStart(s)..StripStart(s) + |Strip(s)|]
  {
    var l := LStrip(s);
    var r := RStrip(l);
    var lo := |s| - |l|;
    assert l == s[lo..];
    assert r == l[..|r|];
    assert s[lo..][..|r|] == s[lo..lo + |r|];
  }

  /** `strip` cuts away whitespace only. */
  lemma StripCutsSpaces(s: string)
    ensures StripStart(s) + |Strip(s)| <= |s|
    ensures forall i :: 0 <= i < StripStart(s) ==> IsSpace(s[i])
    ensures forall i :: StripStart(s) + |Strip(s)| <= i < |s| ==> IsSpace(s[i])
  {
    var l := LStrip(s);
    var r := RStrip(l);
    var lo := |s| - |l|;
    forall i | lo + |r| <= i < |s| ensures IsSpace(s[i]) {
      assert l == s[lo..];
      assert s[i] == l[i - lo];
    }
  }

  /** `strip`'s result neither starts nor ends with whitespace. */
  lemma StripEnds(s: string)
    ensures |Strip(s)| == 0 || (!IsSpace(Strip(s)[0]) && !IsSpace(Strip(s)[|Strip(s)| - 1]))
  {
    var l := LStrip(s);
    var r := RStrip(l);
    if |r| > 0 {
      assert r == l[..|r|];
      assert r[0] == l[0];
    }
  }

  /** The shape of `strip`: a slice of the input with non-space ends and only spaces cut away. */
  lemma StripShape(s: string)
    ensures StripStart(s) + |Strip(s)| <= |s|
    ensures Strip(s) == s[StripStart(s)..StripStart(s) + |Strip(s)|]
    ensures forall i :: 0 <= i < StripStart(s) ==> IsSpace(s[i])
    ensures forall i :: StripStart(s) + |Strip(s)| <= i < |s| ==> IsSpace(s[i])
    ensures |Strip(s)| == 0 || (!IsSpace(Strip(s)[0]) && !IsSpace(Strip(s)[|Strip(s)| - 1]))
  {
    StripSlice(s);
    StripCutsSpaces(s);
    StripEnds(s);
  }

  /** A string with non-space ends is its own strip. */
  lemma StripFixed(s: string)
    requires |s| == 0 || (!IsSpace(s[0]) && !IsSpace(s[|s| - 1]))
    ensures Strip(s) == s
  {
  }

  /** `strip` is idempotent. */
  lemma StripIdempotent(s: string)
    ensures Strip(Strip(s)) == Strip(s)
  {
    StripShape(s);
    StripFixed(Strip(s));
  }

  /** A string that is blank (`not s.strip()`) consists of whitespace only. */
  lemma StripEmpty(s: string)
    ensures Strip(s) == "" <==> forall i :: 0 <= i < |s| ==> IsSpace(s[i])
  {
    var l := LStrip(s);
    if forall i :: 0 <= i < |s| ==> IsSpace(s[i]) {
      if |l| > 0 {
        assert false;
      }
    }
  }

  // ---------------------------------------------------------------------------
  // Digits and integers
  // ---------------------------------------------------------------------------

  predicate IsDigit(c: char) {
    '0' <= c <= '9'
  }

  /** `s.isdigit()` (ASCII digits): non-empty and all digits. */
  predicate IsDigits(s: string) {
    |s| > 0 && forall i :: 0 <= i < |s| ==> IsDigit(s[i])
  }

  function DigitValue(c: char): nat
    requires IsDigit(c)
  {
    (c as int) - ('0' as int)
  }

  function DigitChar(d: nat): (c: char)
    requires d < 10
    ensures IsDigit(c) && DigitValue(c) == d
  {
    ('0' as int + d) as char
  }

  /** The value of a run of decimal digits, most significant first. */
  function DigitsValue(s: string): nat
    requires forall i :: 0 <= i < |s| ==> IsDigit(s[i])
  {
    if |s| == 0 then 0 else DigitsValue(s[..|s| - 1]) * 10 + DigitValue(s[|s| - 1])
  }

  /** `str(n)` for a natural number. */
  function NatToString(n: nat): (s: string)
    ensures IsDigits(s)
    decreases n
  {
    if n < 10 then [DigitChar(n)] else NatToString(n / 10) + [DigitChar(n % 10)]
  }

  /** `str(n)` spells `n`: its digits have value `n`. */
  lemma {:induction false} NatToStringValue(n: nat)
    ensures DigitsValue(NatToString(n)) == n
    decreases n
  {
    if n >= 10 {
      NatToStringValue(n / 10);
      var s := NatToString(n);
      assert s[..|s| - 1] == NatToString(n / 10);
    }
  }

  /** Different numbers have different decimal spellings. */
  lemma NatToStringInjective(m: nat, n: nat)
    requires NatToString(m) == NatToString(n)
    ensures m == n
  {
    NatToStringValue(m);
    NatToStringValue(n);
  }

  /**
   * `int(s)` on ASCII decimal input: surrounding whitespace, an optional sign,
   * then one or more digits; anything else raises `ValueError` (`None` here).
   */
  function ParseInt(s: string): (r: Option<int>)
  {
    var t := Strip(s);
    if |t| > 0 && (t[0] == '-' || t[0] == '+') then
      if IsDigits(t[1..]) then
        var v: int := DigitsValue(t[1..]);
        Some(if t[0] == '-' then -v else v)
      else None
    else if IsDigits(t) then Some(DigitsValue(t))
    else None
  }

  /** `int(str(n)) == n` */
  lemma ParseNatToString(n: nat)
    ensures ParseInt(NatToString(n)) == Some(n)
  {
    var s := NatToString(n);
    assert !IsSpace(s[0]) && !IsSpace(s[|s| - 1]) by {
      assert IsDigit(s[0]) && IsDigit(s[|s| - 1]);
    }
    StripFixed(s);
    assert IsDigit(s[0]);
    NatToStringValue(n);
  }

  // ---------------------------------------------------------------------------
  // Whitespace words
  // ---------------------------------------------------------------------------

  /** The end of the word starting at `from`: the next whitespace or the end. */
  function WordEnd(t: string, from: nat): (j: nat)
    requires from <= |t|
    ensures from <= j <= |t|
    ensures j == |t| || IsSpace(t[j])
    ensures forall i :: from <= i < j ==> !IsSpace(t[i])
    decreases |t| - from
  {
    if from == |t| || IsSpace(t[from]) then from else WordEnd(t, from + 1)
  }

  /** A non-empty run of non-whitespace characters. */
  predicate IsWord(w: string) {
    |w| > 0 && forall i :: 0 <= i < |w| ==> !IsSpace(w[i])
  }

  /** `s.split()`: the maximal runs of non-whitespace characters. */
  function Words(s: string): (ws: seq<string>)
    ensures |ws| <= |s|
    decreases |s|
  {
    var t := LStrip(s);
    if |t| == 0 then []
    else
      var j := WordEnd(t, 0);
      [t[..j]] + Words(t[j..])
  }

  /** The run of non-whitespace at the front of a stripped string is a word. */
  lemma LeadingWord(t: string)
    requires |t| > 0 && !IsSpace(t[0])
    ensures IsWord(t[..WordEnd(t, 0)])
  {
  }

  /** Every piece `split()` gives is a non-empty run of non-whitespace. */
  lemma {:induction false} WordsAreWords(s: string)
    ensures forall k :: 0 <= k < |Words(s)| ==> IsWord(Words(s)[k])
    decreases |s|
  {
    var t := LStrip(s);
    if |t| > 0 {
      var j := WordEnd(t, 0);
      LeadingWord(t);
      WordsAreWords(t[j..]);
      assert Words(s) == [t[..j]] + Words(t[j..]);
      ConsWords(t[..j], Words(t[j..]));
    }
  }

  lemma ConsWords(w: string, ws: seq<string>)
    requires IsWord(w) && forall k :: 0 <= k < |ws| ==> IsWord(ws[k])
    ensures forall k :: 0 <= k < |[w] + ws| ==> IsWord(([w] + ws)[k])
  {
    forall k | 1 <= k < |[w] + ws| ensures IsWord(([w] + ws)[k]) {
      assert ([w] + ws)[k] == ws[k - 1];
    }
  }

  /** A single word splits into itself. */
  lemma WordsOfWord(w: string)
    requires IsWord(w)
    ensures Words(w) == [w]
  {
    assert LStrip(w) == w;
    assert WordEnd(w, 0) == |w|;
    assert w[..|w|] == w;
    assert w[|w|..] == "";
    assert Words("") == [];
  }

  // ---------------------------------------------------------------------------
  // Slicing with Python's negative bounds
  // ---------------------------------------------------------------------------

  /** The index a Python slice bound `n` denotes in a sequence of length `len`. */
  function PyIndex(len: nat, n: int): (k: nat)
    ensures k <= len
    ensures 0 <= n ==> k == (if n <= len then n else len)
    ensures n < 0 ==> k == (if len + n >= 0 then len + n else 0)
  {
    if n < 0 then (if len + n < 0 then 0 else len + n)
    else if n > len then len
    else n
  }

  /** `s[:n]` */
  function SliceTo<T>(s: seq<T>, n: int): seq<T> {
    s[..PyIndex(|s|, n)]
  }

  /** `s[n:]` */
  function SliceFrom<T>(s: seq<T>, n: int): seq<T> {
    s[PyIndex(|s|, n)..]
  }

  /**
   * What Python's `s[:n]` and `s[n:]` give: together they are `s`; a bound
   * from 0 to `len(s)` cuts there, a larger one takes everything into the
   * first part, and `-k` cuts `k` from the end, or at the start when `k`
   * exceeds the length.
   */
  lemma PySlices<T>(s: seq<T>, n: int)
    ensures SliceTo(s, n) + SliceFrom(s, n) == s
    ensures 0 <= n <= |s| ==> SliceTo(s, n) == s[..n] && SliceFrom(s, n) == s[n..]
    ensures |s| < n ==> SliceTo(s, n) == s && SliceFrom(s, n) == []
    ensures n < 0 && -n <= |s| ==> SliceTo(s, n) == s[..|s| + n] && SliceFrom(s, n) == s[|s| + n..]
    ensures n < 0 && |s| < -n ==> SliceTo(s, n) == [] && SliceFrom(s, n) == s
  {
    assert s[..PyIndex(|s|, n)] + s[PyIndex(|s|, n)..] == s;
  }
}
