/**
 * What the three chat pages share: the chat message, the book list read off
 * the prompt directory, and the pool of suggested questions.
 */
module Conversation {
  import opened Outcomes
  import opened Strings
  import WebUtils

  /**
   * A chat message's role. `Speaker(k)` is the group-chat role `assistant1`,
   * `assistant2` or `assistant3` of persona `k + 1`.
   */
  datatype Role = System | User | Assistant | Speaker(k: nat)

  datatype Message = Message(role: Role, content: string)

  type History = seq<Message>

  // ---------------------------------------------------------------------------
  // The book list
  // ---------------------------------------------------------------------------

  /** `[book[:-3] for book in os.listdir(dir)]`: every file name with its last three characters cut. */
  function BookNames(files: seq<string>): (books: seq<string>)
    ensures |books| == |files|
  {
    if |files| == 0 then [] else [SliceTo(files[0], -3)] + BookNames(files[1..])
  }

  /** Cutting three characters is cutting the extension when every file is a `.md` file. */
  lemma {:induction false} BookNamesAreStems(files: seq<string>)
    requires forall k :: 0 <= k < |files| ==> EndsWith(files[k], WebUtils.Markdown)
    ensures BookNames(files) == WebUtils.MarkdownStems(files)
    decreases |files|
  {
    if |files| > 0 {
      BookNamesAreStems(files[1..]);
    }
  }

  /**
   * In a directory of `.md` files a name is offered exactly when its prompt
   * file `name + ".md"` exists, so the file the page opens is always there.
   */
  lemma BookFileListed(files: seq<string>, b: string)
    requires forall k :: 0 <= k < |files| ==> EndsWith(files[k], WebUtils.Markdown)
    ensures b in BookNames(files) <==> b + WebUtils.Markdown in files
  {
    BookNamesAreStems(files);
    WebUtils.MarkdownStemsMembers(files, b);
  }

  // ---------------------------------------------------------------------------
  // Suggested questions
  // ---------------------------------------------------------------------------

  /** A string with some non-space character is not blank, whatever follows it. */
  lemma NotBlankExtended(s: string, suffix: string)
    requires Strip(s) != ""
    ensures Strip(s + suffix) != ""
  {
    StripEmpty(s);
    var i :| 0 <= i < |s| && !IsSpace(s[i]);
    assert (s + suffix)[i] == s[i];
    StripEmpty(s + suffix);
  }

  /**
   * `[p.strip() + suffix for p in pieces if p.strip()]`: the non-blank
   * pieces, stripped, each followed by `suffix`.
   */
  function Kept(pieces: seq<string>, suffix: string): (qs: seq<string>)
    ensures |qs| <= |pieces|
    ensures forall k :: 0 <= k < |qs| ==> Strip(qs[k]) != ""
  {
    if |pieces| == 0 then []
    else
      var head := if Strip(pieces[0]) != "" then (NotBlankExtended(Strip(pieces[0]), suffix); [Strip(pieces[0]) + suffix])
                  else [];
      head + Kept(pieces[1..], suffix)
  }

  /** The kept pieces are exactly the stripped non-blank pieces, each with the suffix. */
  lemma {:induction false} KeptMembers(pieces: seq<string>, suffix: string, q: string)
    ensures q in Kept(pieces, suffix) <==>
            exists j :: 0 <= j < |pieces| && Strip(pieces[j]) != "" && q == Strip(pieces[j]) + suffix
    decreases |pieces|
  {
    if |pieces| > 0 {
      KeptMembers(pieces[1..], suffix, q);
      var p := pieces[0];
      var head := if Strip(p) != "" then [Strip(p) + suffix] else [];
      assert Kept(pieces, suffix) == head + Kept(pieces[1..], suffix);
      KeptFromCons(pieces, suffix, q);
    }
  }

  /** A piece that yields `q` is the first piece or one of the rest. */
  lemma KeptFromCons(pieces: seq<string>, suffix: string, q: string)
    requires |pieces| > 0
    ensures (exists j :: 0 <= j < |pieces| && Strip(pieces[j]) != "" && q == Strip(pieces[j]) + suffix) <==>
            (Strip(pieces[0]) != "" && q == Strip(pieces[0]) + suffix) ||
            (exists j :: 0 <= j < |pieces[1..]| && Strip(pieces[1..][j]) != "" && q == Strip(pieces[1..][j]) + suffix)
  {
    var rest := pieces[1..];
    if exists j :: 0 <= j < |pieces| && Strip(pieces[j]) != "" && q == Strip(pieces[j]) + suffix {
      var j :| 0 <= j < |pieces| && Strip(pieces[j]) != "" && q == Strip(pieces[j]) + suffix;
      if j > 0 {
        assert rest[j - 1] == pieces[j];
      }
    }
    if exists j :: 0 <= j < |rest| && Strip(rest[j]) != "" && q == Strip(rest[j]) + suffix {
      var j :| 0 <= j < |rest| && Strip(rest[j]) != "" && q == Strip(rest[j]) + suffix;
      assert pieces[j + 1] == rest[j];
    }
  }

  /** `[q for q in qs if q.strip()]` */
  function NonBlank(qs: seq<string>): (r: seq<string>)
    ensures |r| <= |qs|
    ensures forall k :: 0 <= k < |r| ==> Strip(r[k]) != ""
  {
    if |qs| == 0 then []
    else (if Strip(qs[0]) != "" then [qs[0]] else []) + NonBlank(qs[1..])
  }

  /** Filtering out blank questions keeps a list that has none. */
  lemma {:induction false} NonBlankKeepsAll(qs: seq<string>)
    requires forall k :: 0 <= k < |qs| ==> Strip(qs[k]) != ""
    ensures NonBlank(qs) == qs
    decreases |qs|
  {
    if |qs| > 0 {
      NonBlankKeepsAll(qs[1..]);
    }
  }

  /**
   * Reading the suggested questions off a model reply: its non-blank lines,
   * stripped; when that gives fewer than three, the reply is cut at every `?`
   * instead and each non-blank piece, stripped, gets its `?` back.
   */
  function ParseQuestions(response: string): (qs: seq<string>)
    ensures forall k :: 0 <= k < |qs| ==> Strip(qs[k]) != ""
  {
    var lines := Kept(Split(response, "\n"), "");
    if |lines| < 3 then NonBlank(Kept(Split(response, "?"), "?")) else lines
  }

  /** With the empty suffix, the kept pieces are exactly the stripped non-blank pieces. */
  lemma KeptLines(pieces: seq<string>, q: string)
    ensures q in Kept(pieces, "") <==> exists j :: 0 <= j < |pieces| && Strip(pieces[j]) != "" && q == Strip(pieces[j])
  {
    KeptMembers(pieces, "", q);
    assert forall j :: 0 <= j < |pieces| ==> Strip(pieces[j]) + "" == Strip(pieces[j]);
  }

  /** With three non-blank lines or more, the questions are exactly those lines, stripped. */
  lemma QuestionsAreLines(response: string, q: string)
    requires |Kept(Split(response, "\n"), "")| >= 3
    ensures var lines := Split(response, "\n");
            q in ParseQuestions(response) <==>
            exists j :: 0 <= j < |lines| && Strip(lines[j]) != "" && q == Strip(lines[j])
  {
    KeptLines(Split(response, "\n"), q);
  }

  /** A stripped string is a slice, so it holds no character its input lacks. */
  lemma StripKeepsOut(s: string, c: char)
    requires c !in s
    ensures c !in Strip(s)
  {
    StripSlice(s);
    var lo := StripStart(s);
    forall i | 0 <= i < |Strip(s)| ensures Strip(s)[i] != c {
      assert Strip(s)[i] == s[lo + i];
    }
  }

  /**
   * With fewer than three non-blank lines, every question is a non-blank
   * `?`-free text followed by a single `?`.
   */
  lemma FallbackQuestions(response: string, k: nat)
    requires |Kept(Split(response, "\n"), "")| < 3
    requires k < |ParseQuestions(response)|
    ensures var q := ParseQuestions(response)[k];
            |q| >= 2 && q[|q| - 1] == '?' && '?' !in q[..|q| - 1] && Strip(q[..|q| - 1]) == q[..|q| - 1]
  {
    var pieces := Split(response, "?");
    var qs := Kept(pieces, "?");
    NonBlankKeepsAll(qs);
    assert ParseQuestions(response) == qs;
    var q := qs[k];
    assert q in qs;
    KeptMembers(pieces, "?", q);
    var j :| 0 <= j < |pieces| && Strip(pieces[j]) != "" && q == Strip(pieces[j]) + "?";
    var body := Strip(pieces[j]);
    SplitPieces(response, "?");
    ContainsChar(pieces[j], '?');
    StripKeepsOut(pieces[j], '?');
    StripIdempotent(pieces[j]);
    assert q[..|q| - 1] == body && q[|q| - 1] == '?';
  }

  /**
   * The suggestion text `head` followed by the first three questions, one per
   * bullet; indexing a list of fewer than three raises.
   */
  function Suggestions(head: string, bullet: string, tail: string, qs: seq<string>): (r: Result<string>)
    ensures r.Ok? <==> |qs| >= 3
    ensures r.Err? ==> r.error == IndexError
    ensures r.Ok? ==> StartsWith(r.value, head) && EndsWith(r.value, qs[2] + tail)
    ensures r.Ok? ==> Contains(r.value, bullet + qs[0]) && Contains(r.value, bullet + qs[1])
  {
    if |qs| < 3 then Err(IndexError)
    else
      var first := head + bullet + qs[0];
      var second := bullet + qs[1];
      var r := first + second + bullet + qs[2] + tail;
      assert r[|head|..|head| + |bullet + qs[0]|] == bullet + qs[0];
      assert OccursAt(r, bullet + qs[0], |head|);
      assert r[|first|..|first| + |second|] == second;
      assert OccursAt(r, second, |first|);
      Ok(r)
  }

  /**
   * `random.choice(qs)`: the drawn index `draw`, taken modulo the pool's
   * length so every index can be drawn; an empty pool raises.
   */
  function Choice(qs: seq<string>, draw: nat): (r: Result<string>)
    ensures r.Ok? <==> |qs| > 0
    ensures r.Err? ==> r.error == IndexError
    ensures r.Ok? ==> r.value in qs
  {
    if |qs| == 0 then Err(IndexError) else Ok(qs[draw % |qs|])
  }

  /** Every question in the pool is the outcome of some draw. */
  lemma ChoiceReachesAll(qs: seq<string>, q: string)
    requires q in qs
    ensures exists draw: nat :: Choice(qs, draw) == Ok(q)
  {
    var k :| 0 <= k < |qs| && qs[k] == q;
    DrawInRange(k, |qs|);
    assert Choice(qs, k) == Ok(q);
  }

  /** A draw below the pool's size picks its own index. */
  lemma DrawInRange(k: nat, n: nat)
    requires k < n
    ensures k % n == k
  {
  }

  /** `qs.remove(q)`: drops the first occurrence; a missing question raises. */
  function RemoveFirst(qs: seq<string>, q: string): (r: Result<seq<string>>)
    ensures r.Ok? <==> q in qs
    ensures r.Err? ==> r.error == ValueError
    ensures r.Ok? ==> |r.value| == |qs| - 1 && multiset(r.value) == multiset(qs) - multiset{q}
  {
    if |qs| == 0 then Err(ValueError)
    else if qs[0] == q then
      assert qs == [qs[0]] + qs[1..];
      Ok(qs[1..])
    else
      match RemoveFirst(qs[1..], q)
      case Err(e) =>
        assert qs == [qs[0]] + qs[1..];
        Err(e)
      case Ok(rest) =>
        assert qs == [qs[0]] + qs[1..];
        Ok([qs[0]] + rest)
  }

  /** The removal cuts out exactly the first occurrence and keeps the others in order. */
  lemma {:induction false} RemoveFirstCut(qs: seq<string>, q: string, i: nat)
    requires i < |qs| && qs[i] == q && q !in qs[..i]
    ensures RemoveFirst(qs, q) == Ok(qs[..i] + qs[i + 1..])
    decreases i
  {
    if i > 0 {
      var tail := qs[1..];
      var front := tail[..i - 1];
      assert qs[0] != q by { assert qs[..i][0] == qs[0]; }
      forall m | 0 <= m < |front|
        ensures front[m] != q
      {
        assert front[m] == qs[..i][m + 1];
      }
      RemoveFirstCut(tail, q, i - 1);
      RemoveFirstSkips(qs, q);
      assert tail[i..] == qs[i + 1..];
      assert [qs[0]] + front == qs[..i];
      AppendAssociates([qs[0]], front, tail[i..]);
    } else {
      assert qs[..0] + qs[1..] == qs[1..];
    }
  }

  /** Past a first question that differs, the removal keeps it and removes from the rest. */
  lemma RemoveFirstSkips(qs: seq<string>, q: string)
    requires |qs| > 0 && qs[0] != q && q in qs[1..]
    ensures RemoveFirst(qs, q) == Ok([qs[0]] + RemoveFirst(qs[1..], q).value)
  {
  }
}
