/**
 * `re.sub(r'<[^>]+>', '', s)`: deletes every HTML-like tag, that is every
 * `<` followed by a non-empty run of characters other than `>` and then a
 * `>`. The scan goes left to right and never looks back into removed text,
 * as Python's `re.sub` does.
 */
module Markup {
  import opened Outcomes

  /** The first `>` at or after index `from`. */
  function NextGt(s: string, from: nat): (r: Option<nat>)
    requires from <= |s|
    ensures r.Some? ==> from <= r.value < |s| && s[r.value] == '>' && '>' !in s[from..r.value]
    ensures r.None? ==> '>' !in s[from..]
    decreases |s| - from
  {
    if from == |s| then None
    else if s[from] == '>' then Some(from)
    else
      var r := NextGt(s, from + 1);
      assert s[from..] == [s[from]] + s[from + 1..];
      assert r.Some? ==> s[from..r.value] == [s[from]] + s[from + 1..r.value];
      r
  }

  /** A tag starts at index 0 of `s`: the regular expression matches there. */
  predicate TagAtStart(s: string) {
    |s| > 0 && s[0] == '<' && NextGt(s, 1).Some? && NextGt(s, 1).value >= 2
  }

  /** `re.sub(r'<[^>]+>', '', s)` */
  function StripTags(s: string): (r: string)
    ensures |r| <= |s|
    decreases |s|
  {
    if |s| == 0 then ""
    else if TagAtStart(s) then StripTags(s[NextGt(s, 1).value + 1..])
    else [s[0]] + StripTags(s[1..])
  }

  /**
   * `s` holds no match of `<[^>]+>`: after every `<` either the next
   * character is `>` or no `>` follows at all.
   */
  predicate TagFree(s: string) {
    forall i :: 0 <= i < |s| && s[i] == '<' ==> (i + 1 < |s| && s[i + 1] == '>') || '>' !in s[i + 1..]
  }

  /** `TagFree` says exactly that no tag span occurs: some `>` always comes first. */
  lemma TagFreeHasNoSpan(s: string)
    requires TagFree(s)
    ensures forall i, j :: 0 <= i && i + 1 < j < |s| && s[i] == '<' && s[j] == '>' ==> '>' in s[i + 1..j]
  {
    forall i, j | 0 <= i && i + 1 < j < |s| && s[i] == '<' && s[j] == '>'
      ensures '>' in s[i + 1..j]
    {
      assert s[i + 1..][j - i - 1] == '>';
      assert s[i + 1] == s[i + 1..j][0];
    }
  }

  /** Any `>` that `NextGt` finds lies in the searched suffix. */
  lemma NextGtFound(s: string, from: nat)
    requires from <= |s|
    ensures NextGt(s, from).Some? ==> '>' in s[from..]
  {
    var r := NextGt(s, from);
    if r.Some? {
      assert s[from..][r.value - from] == s[r.value];
    }
  }

  /** `NextGt` finds the first `>`. */
  lemma {:induction false} NextGtFirst(s: string, from: nat, j: nat)
    requires from <= j < |s| && s[j] == '>'
    requires forall k :: from <= k < j ==> s[k] != '>'
    ensures NextGt(s, from) == Some(j)
    decreases j - from
  {
    if from < j {
      NextGtFirst(s, from + 1, j);
    }
  }

  /** Every character of the output comes from the input. */
  lemma {:induction false} StripTagsChars(s: string)
    ensures forall k :: 0 <= k < |StripTags(s)| ==> StripTags(s)[k] in s
    decreases |s|
  {
    if |s| > 0 {
      if TagAtStart(s) {
        var j := NextGt(s, 1).value;
        StripTagsChars(s[j + 1..]);
        forall k | 0 <= k < |StripTags(s)| ensures StripTags(s)[k] in s {
          assert StripTags(s)[k] in s[j + 1..];
        }
      } else {
        StripTagsChars(s[1..]);
        forall k | 0 <= k < |StripTags(s)| ensures StripTags(s)[k] in s {
          if k > 0 {
            assert StripTags(s)[k] == StripTags(s[1..])[k - 1];
            assert StripTags(s)[k] in s[1..];
          }
        }
      }
    }
  }

  /** A character absent from the input is absent from the output. */
  lemma StripTagsAbsent(s: string, c: char)
    requires c !in s
    ensures c !in StripTags(s)
  {
    StripTagsChars(s);
  }

  /** Appending one character in front keeps `TagFree` if that character is not an open tag. */
  lemma ConsTagFree(c: char, t: string)
    requires TagFree(t)
    requires c == '<' ==> (|t| > 0 && t[0] == '>') || '>' !in t
    ensures TagFree([c] + t)
  {
    var r := [c] + t;
    forall i | 0 <= i < |r| && r[i] == '<'
      ensures (i + 1 < |r| && r[i + 1] == '>') || '>' !in r[i + 1..]
    {
      if i > 0 {
        assert r[i] == t[i - 1];
        assert r[i + 1..] == t[i..];
      } else {
        assert r[1..] == t;
      }
    }
  }

  /** The output of `StripTags` contains no tag. */
  lemma {:induction false} StripTagsTagFree(s: string)
    ensures TagFree(StripTags(s))
    decreases |s|
  {
    if |s| > 0 {
      if TagAtStart(s) {
        StripTagsTagFree(s[NextGt(s, 1).value + 1..]);
      } else {
        var t := StripTags(s[1..]);
        StripTagsTagFree(s[1..]);
        if s[0] == '<' {
          match NextGt(s, 1)
          case None =>
            StripTagsAbsent(s[1..], '>');
          case Some(j) =>
            assert j == 1;
            assert s[1..][0] == '>' && !TagAtStart(s[1..]);
        }
        ConsTagFree(s[0], t);
      }
    }
  }

  /** A tag-free string is left alone, so stripping twice is stripping once. */
  lemma {:induction false} StripTagsFixed(s: string)
    requires TagFree(s)
    ensures StripTags(s) == s
    decreases |s|
  {
    if |s| > 0 {
      assert !TagAtStart(s) by {
        NextGtFound(s, 1);
        if s[0] == '<' && 1 < |s| && s[1] == '>' {
          NextGtFirst(s, 1, 1);
        }
      }
      assert TagFree(s[1..]) by {
        forall i | 0 <= i < |s[1..]| && s[1..][i] == '<'
          ensures (i + 1 < |s[1..]| && s[1..][i + 1] == '>') || '>' !in s[1..][i + 1..]
        {
          assert s[i + 1] == '<';
          assert s[1..][i + 1..] == s[i + 2..];
        }
      }
      StripTagsFixed(s[1..]);
      assert s == [s[0]] + s[1..];
    }
  }

  lemma StripTagsIdempotent(s: string)
    ensures StripTags(StripTags(s)) == StripTags(s)
  {
    StripTagsTagFree(s);
    StripTagsFixed(StripTags(s));
  }

  /** A leading tag `<w>` is removed and nothing else is touched there. */
  lemma StripLeadingTag(w: string, rest: string)
    requires |w| > 0 && '>' !in w
    ensures StripTags("<" + w + ">" + rest) == StripTags(rest)
  {
    var s := "<" + w + ">" + rest;
    var j := |w| + 1;
    assert s[1..j] == w && s[j] == '>';
    assert forall k :: 1 <= k < j ==> s[k] == w[k - 1];
    NextGtFirst(s, 1, j);
    assert s[j + 1..] == rest;
  }
}
