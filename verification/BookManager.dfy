/**
 * The book manager page: the waiting animation, the book prompt file written
 * at the end of the pipeline, the add-book form's checks and the two-click
 * delete of a listed book.
 *
 * Streamlit reruns the whole page once per click, and a button reads true
 * only in the rerun its own click caused; `Click` names that widget.
 */
module BookManager {
  import opened Outcomes
  import opened Strings
  import WebUtils

  // ---------------------------------------------------------------------------
  // The waiting animation
  // ---------------------------------------------------------------------------

  /**
   * `show_waiting_animation`: the values the bar shows while the worker is
   * found alive on `polls` checks, then the final 100.
   */
  method WaitingAnimation(polls: nat) returns (shown: seq<int>)
    ensures |shown| == polls + 1
    ensures forall k :: 0 <= k < polls ==> 0 <= shown[k] < 100 && shown[k] == (k + 1) % 100
    ensures shown[polls] == 100
  {
    var progress := 0;
    shown := [];
    var k := 0;
    while k < polls
      invariant k <= polls && |shown| == k
      invariant progress == k % 100
      invariant forall j :: 0 <= j < k ==> 0 <= shown[j] < 100 && shown[j] == (j + 1) % 100
    {
      progress := (progress + 1) % 100;
      shown := shown + [progress];
      k := k + 1;
    }
    shown := shown + [100];
  }

  // ---------------------------------------------------------------------------
  // create_book_prompt
  // ---------------------------------------------------------------------------

  /** The files the page can read, by path, with their text. */
  type Files = map<string, string>

  const PromptDir: string := "website/book_prompt"
  const FinalReport: string := "/final_report.md"

  /** Where the chat pages look for a book's prompt. */
  function PromptFile(book: string): (path: string)
    ensures |path| == |book| + 23
  {
    PromptDir + "/" + book + WebUtils.Markdown
  }

  /** The reports tried, in order, when the book has no final report. */
  function Fallbacks(book: string): (paths: seq<string>)
    ensures |paths| == 3
    ensures forall k :: 0 <= k < 3 ==> |paths[k]| in {|book| + 10, |book| + 11, |book| + 17}
  {
    [book + "/report.md", book + "/summary.md", book + "/book_summary.txt"]
  }

  /** The position of the first of `paths` that exists. */
  function FirstExisting(files: Files, paths: seq<string>): (r: Option<nat>)
    ensures r.Some? ==> r.value < |paths| && paths[r.value] in files
    ensures r.Some? ==> forall j :: 0 <= j < r.value ==> paths[j] !in files
    ensures r.None? ==> forall j :: 0 <= j < |paths| ==> paths[j] !in files
  {
    if |paths| == 0 then None
    else if paths[0] in files then Some(0)
    else
      match FirstExisting(files, paths[1..])
      case None => None
      case Some(i) => Some(i + 1)
  }

  /**
   * The fixed text of the basic prompt, cut where the book name (three
   * times) and the processing time go in.
   */
  datatype DefaultWording = DefaultWording(title: string, intro: string, facts: string, time: string, topics: string)

  /** A wording whose title line is not empty, as the page's is. */
  type DefaultText = w: DefaultWording | w.title != "" witness DefaultWording("\n", "", "", "", "")

  const ChineseDefault: DefaultText :=
    var w := DefaultWording(
      "\n# 《",
      "》\n\n这是关于《",
      "》的基础信息。系统已完成数据收集和处理，但未找到详细的报告文件。\n\n## 基本信息\n- 书名: ",
      "\n- 数据来源: 豆瓣书评\n- 处理时间: ",
      "\n\n## 可讨论的话题\n- 书籍的主要内容和情节\n- 读者的评价和感受\n- 书中的人物和主题\n- 作品的文学价值和社会意义\n\n请基于豆瓣书评数据和用户兴趣展开讨论。\n"); w

  /** The basic prompt naming the book, stamped with the processing time. */
  function DefaultPrompt(w: DefaultText, book: string, stamp: string): (r: string)
    ensures StartsWith(r, w.title + book) && EndsWith(r, stamp + w.topics) && r != ""
  {
    var head := w.title + book;
    var r := head + (w.intro + book + w.facts + book + w.time + stamp + w.topics);
    assert r[..|head|] == head;
    assert r[|r| - |stamp + w.topics|..] == stamp + w.topics;
    r
  }

  /**
   * The prompt text: the final report when it exists, even empty; otherwise
   * the first existing fallback report, read and then the search stops; the
   * basic prompt when that gave nothing.
   */
  function ReportContent(files: Files, book: string, w: DefaultText, stamp: string): (r: string)
  {
    var final := book + FinalReport;
    if final in files then files[final]
    else
      var found := match FirstExisting(files, Fallbacks(book))
                   case Some(k) => files[Fallbacks(book)[k]]
                   case None => "";
      if found == "" then DefaultPrompt(w, book, stamp) else found
  }

  /** The final report wins whenever it exists. */
  lemma FinalReportWins(files: Files, book: string, w: DefaultText, stamp: string)
    requires book + FinalReport in files
    ensures ReportContent(files, book, w, stamp) == files[book + FinalReport]
  {
  }

  /**
   * Without a final report, the `k`-th fallback is used when it is the first
   * that exists and has text; when it is the first that exists but is empty,
   * the later ones are not looked at and the basic prompt is used.
   */
  lemma FallbackOrder(files: Files, book: string, w: DefaultText, stamp: string, k: nat)
    requires book + FinalReport !in files
    requires k < 3 && Fallbacks(book)[k] in files && forall j :: 0 <= j < k ==> Fallbacks(book)[j] !in files
    ensures var text := files[Fallbacks(book)[k]];
            ReportContent(files, book, w, stamp) == if text == "" then DefaultPrompt(w, book, stamp) else text
  {
    assert FirstExisting(files, Fallbacks(book)) == Some(k);
  }

  /** The prompt is empty exactly when the final report exists and is empty. */
  lemma EmptyOnlyFromFinalReport(files: Files, book: string, w: DefaultText, stamp: string)
    ensures ReportContent(files, book, w, stamp) == "" <==> book + FinalReport in files && files[book + FinalReport] == ""
  {
  }

  /** `create_book_prompt`: the prompt file of the book gets the prompt text; no other file changes. */
  function CreateBookPrompt(files: Files, book: string, w: DefaultText, stamp: string): (r: Files)
    ensures r.Keys == files.Keys + {PromptFile(book)}
    ensures forall p :: p in files && p != PromptFile(book) ==> r[p] == files[p]
    ensures r[PromptFile(book)] == ReportContent(files, book, w, stamp)
  {
    files[PromptFile(book) := ReportContent(files, book, w, stamp)]
  }

  /** The prompt file is never one of the reports it is made from. */
  lemma PromptFileIsNoReport(book: string)
    ensures PromptFile(book) != book + FinalReport && PromptFile(book) !in Fallbacks(book)
  {
  }

  /**
   * Writing the prompt file leaves the reports as they were, so writing it
   * again (at the same time stamp) changes nothing.
   */
  lemma CreateBookPromptIdempotent(files: Files, book: string, w: DefaultText, stamp: string)
    ensures var once := CreateBookPrompt(files, book, w, stamp);
            CreateBookPrompt(once, book, w, stamp) == once
  {
    var once := CreateBookPrompt(files, book, w, stamp);
    PromptFileIsNoReport(book);
    var paths := Fallbacks(book);
    assert forall j :: 0 <= j < 3 ==> (paths[j] in once <==> paths[j] in files);
    assert FirstExisting(once, paths) == FirstExisting(files, paths) by {
      FirstExistingSame(files, once, paths);
    }
    assert ReportContent(once, book, w, stamp) == ReportContent(files, book, w, stamp);
  }

  /** Two file maps that agree on the paths find the same first one. */
  lemma {:induction false} FirstExistingSame(a: Files, b: Files, paths: seq<string>)
    requires forall j :: 0 <= j < |paths| ==> (paths[j] in a <==> paths[j] in b)
    ensures FirstExisting(a, paths) == FirstExisting(b, paths)
    decreases |paths|
  {
    if |paths| > 0 {
      FirstExistingSame(a, b, paths[1..]);
    }
  }

  // ---------------------------------------------------------------------------
  // The add-book form
  // ---------------------------------------------------------------------------

  /** The widget whose click caused this rerun of the page. */
  datatype Click = SubmitForm | ConfirmReprocess | Elsewhere

  /** What one rerun does with the form: nothing, an error, a warning asking to confirm, or the pipeline. */
  datatype Submission = Idle | Invalid | AskConfirm(book: string) | Process(book: string)

  /** The books already there: the names of the `.md` files of the prompt directory, or none when it is missing. */
  function ExistingBooks(listing: Option<seq<string>>): (books: seq<string>)
    ensures listing.None? ==> books == []
  {
    match listing
    case None => []
    case Some(files) => WebUtils.MarkdownStems(files)
  }

  /**
   * The form as written: the confirm button is read inside the branch of
   * the form's own submit, which holds only in the rerun of the submit
   * click, so the confirm button never reads true there.
   */
  function SubmitAsWritten(click: Click, name: string, listing: Option<seq<string>>): (r: Submission)
    ensures r == Idle <==> click != SubmitForm || name == ""
    ensures r == Invalid <==> click == SubmitForm && name != "" && Strip(name) == ""
    ensures r.Process? ==> r.book == name && Strip(name) != "" && name !in ExistingBooks(listing)
  {
    if click == SubmitForm && name != "" then
      if Strip(name) != "" then
        if name in ExistingBooks(listing) then
          if click == ConfirmReprocess then Process(name) else AskConfirm(name)
        else Process(name)
      else Invalid
    else Idle
  }

  /** Whatever is clicked, a book that is already there is never processed again. */
  lemma AsWrittenNeverReprocesses(click: Click, name: string, files: seq<string>)
    requires name + WebUtils.Markdown in files
    ensures SubmitAsWritten(click, name, Some(files)) != Process(name)
  {
    WebUtils.MarkdownStemsMembers(files, name);
  }

  /**
   * The form with the confirmation carried across reruns: a submit of an
   * existing book remembers it as `pending`, and the confirm click processes
   * the remembered book.
   */
  function Submit(pending: Option<string>, click: Click, name: string, listing: Option<seq<string>>)
    : (r: (Submission, Option<string>))
    ensures click == SubmitForm ==> r.0 == SubmitAsWritten(click, name, listing) || r.0.AskConfirm?
    ensures r.0.AskConfirm? <==> click == SubmitForm && name != "" && Strip(name) != "" && name in ExistingBooks(listing)
    ensures r.0.AskConfirm? ==> r.0.book == name && r.1 == Some(name)
    ensures click == ConfirmReprocess ==> r.0 == (if pending.Some? then Process(pending.value) else Idle) && r.1.None?
    ensures click == Elsewhere ==> r == (Idle, pending)
  {
    match click
    case SubmitForm =>
      if name != "" && Strip(name) != "" && name in ExistingBooks(listing) then (AskConfirm(name), Some(name))
      else (SubmitAsWritten(click, name, listing), pending)
    case ConfirmReprocess => (if pending.Some? then Process(pending.value) else Idle, None)
    case Elsewhere => (Idle, pending)
  }

  /** Submitting an existing book and then confirming processes it again. */
  lemma ConfirmReprocesses(pending: Option<string>, name: string, files: seq<string>)
    requires Strip(name) != "" && name + WebUtils.Markdown in files
    ensures var asked := Submit(pending, SubmitForm, name, Some(files));
            asked.0 == AskConfirm(name) && Submit(asked.1, ConfirmReprocess, "", Some(files)).0 == Process(name)
  {
    WebUtils.MarkdownStemsMembers(files, name);
  }

  /** Every book the form processes was entered with some non-space character. */
  lemma ProcessedNamesValid(pending: Option<string>, click: Click, name: string, listing: Option<seq<string>>)
    requires pending.Some? ==> Strip(pending.value) != ""
    ensures var r := Submit(pending, click, name, listing);
            (r.0.Process? ==> Strip(r.0.book) != "") && (r.1.Some? ==> Strip(r.1.value) != "")
  {
  }

  // ---------------------------------------------------------------------------
  // Deleting a book
  // ---------------------------------------------------------------------------

  /** The listing without every entry equal to `f`. */
  function Without(listing: seq<string>, f: string): (r: seq<string>)
    ensures f !in r
    ensures forall x :: x != f ==> (x in r <==> x in listing)
  {
    if |listing| == 0 then []
    else (if listing[0] == f then [] else [listing[0]]) + Without(listing[1..], f)
  }

  /** The book shown at position `i`: the `.md` names in directory order. */
  function Shown(listing: seq<string>, i: nat): string
    requires i < |WebUtils.MarkdownStems(listing)|
  {
    WebUtils.MarkdownStems(listing)[i]
  }

  /**
   * The delete button at position `i` as written: its confirmation flag is
   * keyed by the position and is never cleared, so after a delete it stays
   * armed for whichever book moves into that position.
   */
  function DeleteClickAsWritten(armed: set<nat>, listing: seq<string>, i: nat): (r: (set<nat>, seq<string>))
    requires i < |WebUtils.MarkdownStems(listing)|
    ensures i in r.0
    ensures i in armed ==> r.1 == Without(listing, Shown(listing, i) + WebUtils.Markdown)
    ensures i !in armed ==> r.1 == listing
  {
    if i in armed then (armed, Without(listing, Shown(listing, i) + WebUtils.Markdown))
    else (armed + {i}, listing)
  }

  /**
   * With books `a` and `b`, two clicks on the first delete `a`; the single
   * next click on the first position then deletes `b`, whose button was
   * never clicked before.
   */
  lemma AsWrittenDeletesOnOneClick()
    ensures var s1 := DeleteClickAsWritten({}, ["a.md", "b.md"], 0);
            var s2 := DeleteClickAsWritten(s1.0, s1.1, 0);
            s2.1 == ["b.md"] && Shown(s2.1, 0) == "b"
            && DeleteClickAsWritten(s2.0, s2.1, 0).1 == []
  {
    var listing := ["a.md", "b.md"];
    assert WebUtils.MarkdownStems(["b.md"]) == ["b"] by {
      assert "b.md"[..1] == "b";
      assert EndsWith("b.md", WebUtils.Markdown);
    }
    assert WebUtils.MarkdownStems(listing) == ["a", "b"] by {
      assert "a.md"[..1] == "a";
      assert EndsWith("a.md", WebUtils.Markdown);
      assert listing[1..] == ["b.md"];
    }
    assert Without(listing, "a.md") == ["b.md"] by {
      assert listing[1..] == ["b.md"];
      assert Without(["b.md"], "a.md") == ["b.md"];
    }
  }

  /**
   * The delete button of the book at position `i`, with the confirmation
   * keyed by the book's name and cleared by the delete.
   */
  function DeleteClick(armed: set<string>, listing: seq<string>, i: nat): (r: (set<string>, seq<string>))
    requires i < |WebUtils.MarkdownStems(listing)|
    ensures var book := Shown(listing, i);
            (book in armed ==> r == (armed - {book}, Without(listing, book + WebUtils.Markdown)))
            && (book !in armed ==> r == (armed + {book}, listing))
  {
    var book := Shown(listing, i);
    if book in armed then (armed - {book}, Without(listing, book + WebUtils.Markdown))
    else (armed + {book}, listing)
  }

  /**
   * A click deletes only the clicked book, and only when its own earlier
   * click armed it; afterwards it is unlisted and disarmed, and every other
   * book is still listed.
   */
  lemma DeleteClickRemovesOnlyArmed(armed: set<string>, listing: seq<string>, i: nat, b: string)
    requires i < |WebUtils.MarkdownStems(listing)|
    ensures var r := DeleteClick(armed, listing, i);
            var book := Shown(listing, i);
            (r.1 != listing ==> book in armed)
            && (b in WebUtils.MarkdownStems(r.1) <==> b in WebUtils.MarkdownStems(listing) && (b != book || book !in armed))
            && (book in armed ==> book !in r.0)
  {
    var r := DeleteClick(armed, listing, i);
    var book := Shown(listing, i);
    WebUtils.MarkdownStemsMembers(r.1, b);
    WebUtils.MarkdownStemsMembers(listing, b);
    if b != book {
      assert b + WebUtils.Markdown != book + WebUtils.Markdown by {
        assert (b + WebUtils.Markdown)[..|b|] == b;
        assert (book + WebUtils.Markdown)[..|book|] == book;
      }
    }
  }

  /** The same three clicks as above now leave `b` listed, armed by its first click. */
  lemma ConfirmByNameKeepsNext()
    ensures var s1 := DeleteClick({}, ["a.md", "b.md"], 0);
            var s2 := DeleteClick(s1.0, s1.1, 0);
            var s3 := DeleteClick(s2.0, s2.1, 0);
            s2.1 == ["b.md"] && s3.1 == ["b.md"] && s3.0 == {"b"}
  {
    var listing := ["a.md", "b.md"];
    assert WebUtils.MarkdownStems(["b.md"]) == ["b"] by {
      assert "b.md"[..1] == "b";
      assert EndsWith("b.md", WebUtils.Markdown);
    }
    assert WebUtils.MarkdownStems(listing) == ["a", "b"] by {
      assert "a.md"[..1] == "a";
      assert EndsWith("a.md", WebUtils.Markdown);
      assert listing[1..] == ["b.md"];
    }
    assert Without(listing, "a.md") == ["b.md"] by {
      assert listing[1..] == ["b.md"];
      assert Without(["b.md"], "a.md") == ["b.md"];
    }
  }
}
