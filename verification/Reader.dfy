/**
 * The one-friend reading chat, in its Chinese page (`website/main.py`) and
 * its English page (`website-en/chatbot.py`): the session kept across
 * reruns, the suggested-question pool, a chat turn, and the English page's
 * bookmark card.
 */
module Reader {
  import opened Outcomes
  import opened Strings
  import opened Conversation

  // ---------------------------------------------------------------------------
  // Session state
  // ---------------------------------------------------------------------------

  /**
   * The suggested questions: `possible_qa` (the pool), `selected_qa` and the
   * suggestion text shown above the chat (`system_prompt`).
   */
  datatype Pool = Pool(possible: Option<seq<string>>, selected: Option<string>, systemPrompt: Option<string>)

  const NoQuestions: Pool := Pool(None, None, None)

  /** The page's session; `messages` is None while the key is absent. */
  datatype Session = Session(messages: Option<History>, previousBook: Option<string>, pool: Pool)

  /**
   * Choosing a book: the first choice is remembered; a different book than
   * the remembered one forgets the conversation and the questions and asks
   * for a rerun; the same book changes nothing.
   */
  function SelectBook(s: Session, book: string): (r: (Session, bool))
    ensures r.0.previousBook == Some(book)
    ensures r.1 <==> s.previousBook.Some? && s.previousBook.value != book
    ensures r.1 ==> r.0.messages == Some([]) && r.0.pool == NoQuestions
    ensures s.previousBook.None? ==> r.0.messages == s.messages && r.0.pool == NoQuestions
    ensures s.previousBook == Some(book) ==> r.0 == s
  {
    match s.previousBook
    case None => (Session(s.messages, Some(book), NoQuestions), false)
    case Some(previous) =>
      if previous != book then (Session(Some([]), Some(book), NoQuestions), true)
      else (s, false)
  }

  /** Choosing the same book again, after the rerun, changes nothing more. */
  lemma SelectBookIdempotent(s: Session, book: string)
    ensures SelectBook(SelectBook(s, book).0, book) == (SelectBook(s, book).0, false)
  {
  }

  /**
   * The English page's book: the `book` URL parameter when it names a
   * listed book, the dropdown's choice otherwise.
   */
  function ChooseBook(books: seq<string>, fromUrl: Option<string>, dropdown: string): (book: string)
    ensures fromUrl.Some? && fromUrl.value in books ==> book == fromUrl.value
    ensures !(fromUrl.Some? && fromUrl.value in books) ==> book == dropdown
  {
    if fromUrl.Some? && fromUrl.value in books then fromUrl.value else dropdown
  }

  /** Whenever the dropdown offers only listed books, the chosen book is a listed one. */
  lemma ChosenBookListed(books: seq<string>, fromUrl: Option<string>, dropdown: string)
    requires dropdown in books
    ensures ChooseBook(books, fromUrl, dropdown) in books
  {
  }

  // ---------------------------------------------------------------------------
  // The opening message
  // ---------------------------------------------------------------------------

  /** The page's prompt template around its two fields, `{book_prompt}` and `{book_name}`. */
  datatype Template = Template(head: string, middle: string, tail: string)

  /** `prompt_template.format(book_name=book, book_prompt=text)` */
  function InitialPrompt(t: Template, book: string, text: string): (p: string)
    ensures StartsWith(p, t.head + text) && EndsWith(p, book + t.tail)
  {
    var p := t.head + text + t.middle + book + t.tail;
    assert p[..|t.head + text|] == t.head + text;
    assert p[|p| - |book + t.tail|..] == book + t.tail;
    p
  }

  /**
   * The Chinese page's guard as written: the opening assistant message is
   * added only while the `messages` key is absent.
   */
  function InitialMessageAsWritten(messages: Option<History>, prompt: string): (h: History)
    ensures messages.None? ==> h == [Message(Assistant, prompt)]
    ensures messages.Some? ==> h == messages.value
  {
    match messages
    case None => [Message(Assistant, prompt)]
    case Some(m) => m
  }

  /**
   * The English page's guard, which both pages are modelled with: the opening
   * assistant message is added while the key is absent or the log is empty.
   */
  function InitialMessage(messages: Option<History>, prompt: string): (h: History)
    ensures |h| > 0 && h[0] == (if messages.Some? && messages.value != [] then messages.value[0] else Message(Assistant, prompt))
    ensures messages.Some? && messages.value != [] ==> h == messages.value
    ensures messages.None? || messages.value == [] ==> h == [Message(Assistant, prompt)]
  {
    if messages.None? || messages.value == [] then [Message(Assistant, prompt)] else messages.value
  }

  /**
   * After a switch to another book the Chinese page's log stays empty, so the
   * next reply is asked for without the book's prompt; the English guard
   * starts the new book's conversation with it.
   */
  lemma SwitchLosesOpening(s: Session, book: string, prompt: string)
    requires s.previousBook.Some? && s.previousBook.value != book
    ensures InitialMessageAsWritten(SelectBook(s, book).0.messages, prompt) == []
    ensures InitialMessage(SelectBook(s, book).0.messages, prompt) == [Message(Assistant, prompt)]
  {
  }

  /**
   * The messages shown: each one except those equal to the first message
   * when that is the assistant's opening prompt.
   */
  function Displayed(messages: History, initial: string): (shown: History)
    ensures |shown| <= |messages|
  {
    if |messages| == 0 then [] else Unhidden(messages, messages[0], initial)
  }

  /** `messages` without the copies of `first` when `first` is the opening prompt. */
  function Unhidden(messages: History, first: Message, initial: string): (shown: History)
    ensures |shown| <= |messages|
    ensures forall k :: 0 <= k < |shown| ==> shown[k] in messages
  {
    if |messages| == 0 then []
    else
      var m := messages[0];
      var rest := Unhidden(messages[1..], first, initial);
      if m == first && m.role == Assistant && m.content == initial then rest else [m] + rest
  }

  /** Nothing is hidden when the first message is not the opening prompt. */
  lemma {:induction false} UnhiddenKeepsAll(messages: History, first: Message, initial: string)
    requires first != Message(Assistant, initial)
    ensures Unhidden(messages, first, initial) == messages
    decreases |messages|
  {
    if |messages| > 0 {
      UnhiddenKeepsAll(messages[1..], first, initial);
    }
  }

  /** Only copies of the opening prompt are hidden. */
  lemma {:induction false} UnhiddenKeepsOthers(messages: History, first: Message, initial: string)
    requires first !in messages
    ensures Unhidden(messages, first, initial) == messages
    decreases |messages|
  {
    if |messages| > 0 {
      assert first !in messages[1..] by { assert forall x :: x in messages[1..] ==> x in messages; }
      UnhiddenKeepsOthers(messages[1..], first, initial);
    }
  }

  /**
   * A log opened with the assistant's prompt, which does not recur, is shown
   * without it; any other log is shown whole.
   */
  lemma DisplayedSkipsOpening(messages: History, initial: string)
    ensures |messages| > 0 && messages[0] == Message(Assistant, initial) && messages[0] !in messages[1..]
            ==> Displayed(messages, initial) == messages[1..]
    ensures (|messages| == 0 || messages[0] != Message(Assistant, initial)) ==> Displayed(messages, initial) == messages
  {
    if |messages| > 0 {
      if messages[0] == Message(Assistant, initial) && messages[0] !in messages[1..] {
        UnhiddenKeepsOthers(messages[1..], messages[0], initial);
      } else if messages[0] != Message(Assistant, initial) {
        UnhiddenKeepsAll(messages, messages[0], initial);
      }
    }
  }

  // ---------------------------------------------------------------------------
  // Suggested questions
  // ---------------------------------------------------------------------------

  /**
   * The fixed parts of the two suggestion texts: the opening's head around
   * the book name, its bullet and tail, and the refreshed text's head,
   * bullet and tail, each indented as the page's source indents it.
   */
  datatype SuggestionWording = SuggestionWording(openHead: string, openMiddle: string, bullet: string, tail: string,
                                                 refreshHead: string, refreshBullet: string, refreshTail: string)

  const ChineseSuggestions: SuggestionWording := SuggestionWording(
    "\n    你好，今天我们聊聊", "这本书吧。\n\n    你可以试试一些有趣的问题，比如：", "\n    - ", "\n    ",
    "\n        你可以试试这些有趣的问题，比如：", "\n        - ", "\n        ")

  const EnglishSuggestions: SuggestionWording := SuggestionWording(
    "\n        Hello, let's chat about '", "' today.\n\n        You could try asking some interesting questions like:",
    "\n        - ", "\n        ",
    "\n        You could try these interesting questions:", "\n        - ", "\n        ")

  /**
   * The first questions for a book: parsed from the model's reply with the
   * `?` fallback, one drawn, and the first three shown under a greeting that
   * names the book. Fewer than three questions raise.
   */
  function OpeningQuestions(w: SuggestionWording, book: string, response: string, draw: nat): (r: Result<Pool>)
    ensures r.Ok? <==> |ParseQuestions(response)| >= 3
    ensures r.Err? ==> r.error == IndexError
    ensures r.Ok? ==> r.value.possible == Some(ParseQuestions(response))
    ensures r.Ok? ==> r.value.selected.Some? && r.value.selected.value in ParseQuestions(response)
    ensures r.Ok? ==> r.value.systemPrompt.Some? && StartsWith(r.value.systemPrompt.value, w.openHead + book)
  {
    var qs := ParseQuestions(response);
    match Choice(qs, draw)
    case Err(e) => Err(e)
    case Ok(selected) =>
      var head := w.openHead + book + w.openMiddle;
      match Suggestions(head, w.bullet, w.tail, qs)
      case Err(e) => Err(e)
      case Ok(text) =>
        StartsWithShorter(text, w.openHead + book, w.openMiddle);
        Ok(Pool(Some(qs), Some(selected), Some(text)))
  }

  /**
   * The question step of a turn. An empty or missing pool is refilled from a
   * new reply (its lines only, without the `?` fallback), a question is
   * drawn and three are shown; indexing past a short list raises after the
   * assignments made so far. Otherwise a question is drawn from the pool and
   * removed from it, and the suggestion text is cleared.
   */
  function NextQuestion(w: SuggestionWording, p: Pool, refill: string, draw: nat): (r: (Pool, Option<PyError>))
    ensures r.1.Some? ==> r.1.value == IndexError
    ensures (p.possible.Some? && p.possible.value != []) ==>
              r.1.None? && r.0.selected.Some? && r.0.selected.value in p.possible.value
              && r.0.possible.Some? && |r.0.possible.value| == |p.possible.value| - 1
              && multiset(r.0.possible.value) == multiset(p.possible.value) - multiset{r.0.selected.value}
              && r.0.systemPrompt == Some("")
    ensures !(p.possible.Some? && p.possible.value != []) ==>
              r.0.possible == Some(Kept(Split(refill, "\n"), ""))
              && (r.1.None? <==> |Kept(Split(refill, "\n"), "")| >= 3)
    ensures !(p.possible.Some? && p.possible.value != []) && r.1.None? ==>
              r.0.systemPrompt.Some? && StartsWith(r.0.systemPrompt.value, w.refreshHead)
              && Contains(r.0.systemPrompt.value, w.refreshBullet + r.0.possible.value[0])
              && Contains(r.0.systemPrompt.value, w.refreshBullet + r.0.possible.value[1])
  {
    if p.possible.None? || p.possible.value == [] then
      var qs := Kept(Split(refill, "\n"), "");
      match Choice(qs, draw)
      case Err(e) => (Pool(Some(qs), p.selected, p.systemPrompt), Some(e))
      case Ok(selected) =>
        match Suggestions(w.refreshHead, w.refreshBullet, w.refreshTail, qs)
        case Err(e) => (Pool(Some(qs), Some(selected), p.systemPrompt), Some(e))
        case Ok(text) => (Pool(Some(qs), Some(selected), Some(text)), None)
    else
      var selected := Choice(p.possible.value, draw).value;
      var rest := RemoveFirst(p.possible.value, selected).value;
      (Pool(Some(rest), Some(selected), Some("")), None)
  }

  /**
   * A turn: the question step, then the user's message and the model's reply
   * to the whole log, in that order. A raise in the question step ends the
   * turn before the log changes.
   */
  function Turn(w: SuggestionWording, messages: History, p: Pool, prompt: string, refill: string, draw: nat,
                llm: History -> string): (r: (History, Pool, Option<PyError>))
    ensures r.2.Some? ==> r.0 == messages
    ensures r.2.None? ==> r.0 == messages + [Message(User, prompt), Message(Assistant, llm(messages + [Message(User, prompt)]))]
    ensures (r.1, r.2) == NextQuestion(w, p, refill, draw)
  {
    var next := NextQuestion(w, p, refill, draw);
    if next.1.Some? then (messages, next.0, next.1)
    else
      var asked := Message(User, prompt);
      (messages + [asked, Message(Assistant, llm(messages + [asked]))], next.0, None)
  }

  /** The log is the opening assistant prompt followed by user/assistant pairs. */
  predicate Alternating(h: History) {
    |h| % 2 == 1 && h[0].role == Assistant
    && forall k :: 1 <= k < |h| ==> h[k].role == (if k % 2 == 1 then User else Assistant)
  }

  /** A question and its answer appended to an alternating log keep it alternating. */
  lemma PairAlternates(messages: History, question: string, answer: string)
    requires Alternating(messages)
    ensures Alternating(messages + [Message(User, question), Message(Assistant, answer)])
  {
    var h := messages + [Message(User, question), Message(Assistant, answer)];
    forall k | 1 <= k < |h| ensures h[k].role == (if k % 2 == 1 then User else Assistant) {
      if k < |messages| { assert h[k] == messages[k]; }
    }
  }

  /** A turn keeps the log alternating, whatever the question step does. */
  lemma TurnAlternates(w: SuggestionWording, messages: History, p: Pool, prompt: string, refill: string,
                       draw: nat, llm: History -> string)
    requires Alternating(messages)
    ensures Alternating(Turn(w, messages, p, prompt, refill, draw, llm).0)
  {
    var r := Turn(w, messages, p, prompt, refill, draw, llm);
    if r.2.None? {
      PairAlternates(messages, prompt, llm(messages + [Message(User, prompt)]));
    }
  }

  /** A pool of n questions lasts n turns without consulting the model. */
  lemma PoolLasts(w: SuggestionWording, p: Pool, refill: string, draw: nat)
    requires p.possible.Some? && p.possible.value != []
    ensures NextQuestion(w, p, refill, draw).1.None?
    ensures |NextQuestion(w, p, refill, draw).0.possible.value| == |p.possible.value| - 1
    ensures NextQuestion(w, p, refill, draw) == NextQuestion(w, p, "", draw)
  {
  }

  // ---------------------------------------------------------------------------
  // The bookmark card (English page)
  // ---------------------------------------------------------------------------

  /**
   * The recent window the card is drawn from: the last five messages when
   * there are six or more, otherwise all but the opening one.
   */
  function RecentWindow(messages: History): (window: History)
    ensures |window| == (if |messages| >= 6 then 5 else if |messages| == 0 then 0 else |messages| - 1)
    ensures window == messages[|messages| - |window|..]
  {
    if |messages| >= 6 then messages[|messages| - 5..] else SliceFrom(messages, 1)
  }

  /** The window never holds the opening message and never more than five. */
  lemma WindowSkipsOpening(messages: History)
    requires |messages| > 0
    ensures |RecentWindow(messages)| < |messages| && |RecentWindow(messages)| <= 5
    ensures RecentWindow(messages) == messages[|messages| - |RecentWindow(messages)|..]
  {
  }

  const Fence: string := "```"
  const SvgFence: string := "```svg"

  /**
   * `card.split("```svg")[1].split("```")[0]`: the text after the first
   * `` ```svg `` up to the next fence; a card without `` ```svg `` raises.
   */
  function SvgCode(card: string): (r: Result<string>)
    ensures r.Ok? <==> Contains(card, SvgFence)
    ensures r.Err? ==> r.error == IndexError
  {
    if Contains(card, SvgFence) then
      SplitSecond(card, SvgFence);
      Ok(Split(Split(card, SvgFence)[1], Fence)[0])
    else
      SplitNoSep(card, SvgFence);
      Err(IndexError)
  }

  /**
   * The code is a fence-free prefix of what follows the first `` ```svg ``,
   * ending where that text ends or a fence begins.
   */
  lemma SvgCodeBetweenFences(card: string)
    requires Contains(card, SvgFence)
    ensures var rest := AfterFirst(card, SvgFence);
            var code := SvgCode(card).value;
            StartsWith(rest, code) && !Contains(code, Fence)
            && (code == rest || OccursAt(rest, Fence, |code|))
  {
    var rest := AfterFirst(card, SvgFence);
    SplitSecond(card, SvgFence);
    var piece := BeforeFirst(rest, SvgFence);
    SplitHead(piece, Fence);
    var code := BeforeFirst(piece, Fence);
    assert SvgCode(card).value == code;
    BeforeFirstClean(piece, Fence);
    assert piece == rest[..|piece|];
    assert code == piece[..|code|];
    assert code == rest[..|code|];
    match IndexOf(piece, Fence)
    case Some(i) =>
      assert OccursAt(piece, Fence, i);
      assert rest[i..i + 3] == piece[i..i + 3];
    case None =>
      match IndexOf(rest, SvgFence)
      case Some(a) =>
        assert OccursAt(rest, SvgFence, a);
        assert rest[a..a + 3] == rest[a..a + 6][..3];
      case None =>
  }

  const BackgroundKey: string := "background:"
  const BackgroundColorKey: string := "background-color:"
  const SvgTag: string := "<svg"
  const WhiteSvgTag: string := "<svg style=\"" + BackgroundColorKey + " white\""

  /** The whitening attribute sets a background colour. */
  lemma WhiteTagSetsColor()
    ensures Contains(WhiteSvgTag, BackgroundColorKey)
  {
    var head := "<svg style=\"";
    assert WhiteSvgTag[|head|..|head| + |BackgroundColorKey|] == BackgroundColorKey;
    assert OccursAt(WhiteSvgTag, BackgroundColorKey, |head|);
  }

  /** The code sets a background of its own. */
  predicate HasBackground(svg: string) {
    Contains(svg, BackgroundKey) || Contains(svg, BackgroundColorKey)
  }

  /** Every `<svg` gets a white background unless the code sets one already. */
  function WhiteBackground(svg: string): (r: string)
    ensures HasBackground(svg) ==> r == svg
    ensures !Contains(svg, SvgTag) ==> r == svg
    ensures Contains(svg, SvgTag) ==> HasBackground(r)
    ensures !HasBackground(svg) ==> r == ReplaceAll(svg, SvgTag, WhiteSvgTag)
  {
    if !HasBackground(svg) then
      if Contains(svg, SvgTag) then
        ReplaceIntroduces(svg, SvgTag, WhiteSvgTag);
        WhiteTagSetsColor();
        ContainsTrans(ReplaceAll(svg, SvgTag, WhiteSvgTag), WhiteSvgTag, BackgroundColorKey);
        ReplaceAll(svg, SvgTag, WhiteSvgTag)
      else
        ReplaceAbsent(svg, SvgTag, WhiteSvgTag);
        ReplaceAll(svg, SvgTag, WhiteSvgTag)
    else svg
  }

  /**
   * Code with one `<svg` and no background gets the white style on that tag,
   * and every other character is kept where it was.
   */
  lemma WhiteBackgroundSingleTag(head: string, tail: string)
    requires '<' !in head && !Contains(tail, SvgTag)
    requires !HasBackground(head + SvgTag + tail)
    ensures WhiteBackground(head + SvgTag + tail) == head + WhiteSvgTag + tail
  {
    ReplaceSingle(head, SvgTag, tail, WhiteSvgTag);
  }

  /** Whitening twice is whitening once. */
  lemma WhiteBackgroundIdempotent(svg: string)
    ensures WhiteBackground(WhiteBackground(svg)) == WhiteBackground(svg)
  {
  }

  const MaxTries: nat := 3

  /** The retry loop's test as written: a non-empty reply that starts with `` ```svg `` or `svg`. */
  predicate AcceptedAsWritten(card: string) {
    |card| > 0 && (StartsWith(card, SvgFence) || StartsWith(card, "svg"))
  }

  /** The test the extraction needs: the reply holds a `` ```svg `` block somewhere. */
  predicate Accepted(card: string) {
    Contains(card, SvgFence)
  }

  /** A reply that starts with a bare `svg` passes the loop as written and then fails the extraction. */
  lemma AsWrittenAcceptsUnparseable()
    ensures AcceptedAsWritten("svg") && SvgCode("svg") == Err(IndexError)
  {
    assert "svg"[..3] == "svg";
  }

  /** Every reply the corrected test accepts yields its code. */
  lemma AcceptedParses(card: string)
    requires Accepted(card)
    ensures SvgCode(card).Ok?
  {
  }

  /**
   * The attempt at which the retry loop stops, searching from attempt `t`:
   * the first reply `accept` takes, or the last attempt.
   */
  function StopAttempt(generate: nat -> string, accept: string -> bool, t: nat): (k: nat)
    requires t < MaxTries
    ensures t <= k < MaxTries
    decreases MaxTries - t
  {
    if t == MaxTries - 1 || accept(generate(t)) then t else StopAttempt(generate, accept, t + 1)
  }

  /** The bookmark the page makes from the reply the loop stops at: its SVG, whitened. */
  function BookmarkOf(generate: nat -> string, accept: string -> bool): Result<string> {
    match SvgCode(generate(StopAttempt(generate, accept, 0)))
    case Err(e) => Err(e)
    case Ok(code) => Ok(WhiteBackground(code))
  }

  /**
   * Asking for the card up to three times, stopping at the first reply
   * `accept` takes; `generate(t)` is the model's reply at attempt `t`.
   */
  method CardAttempts(generate: nat -> string, accept: string -> bool) returns (card: string, tries: nat)
    ensures 1 <= tries <= MaxTries
    ensures card == generate(tries - 1)
    ensures forall t :: 0 <= t < tries - 1 ==> !accept(generate(t))
    ensures accept(card) || tries == MaxTries
    ensures tries - 1 == StopAttempt(generate, accept, 0)
  {
    card := generate(0);
    tries := 1;
    while tries < MaxTries && !accept(card)
      invariant 1 <= tries <= MaxTries
      invariant card == generate(tries - 1)
      invariant forall t :: 0 <= t < tries - 1 ==> !accept(generate(t))
      invariant StopAttempt(generate, accept, 0) == StopAttempt(generate, accept, tries - 1)
    {
      card := generate(tries);
      tries := tries + 1;
    }
  }

  /**
   * The card's SVG as the page makes it: the loop stops at the first reply
   * that starts with `` ```svg `` or `svg`, and that reply is then cut at
   * its `` ```svg `` fence, which raises when it has none.
   */
  method BookmarkSvg(generate: nat -> string) returns (svg: Result<string>)
    ensures svg == BookmarkOf(generate, AcceptedAsWritten)
    ensures svg.Err? ==> svg.error == IndexError
    ensures AcceptedAsWritten(generate(0)) && !Contains(generate(0), SvgFence) ==> svg == Err(IndexError)
  {
    var card, tries := CardAttempts(generate, AcceptedAsWritten);
    match SvgCode(card)
    case Err(e) =>
      svg := Err(e);
    case Ok(code) =>
      svg := Ok(WhiteBackground(code));
  }

  /**
   * Replies `svg`, then a fenced block: the loop as written stops at the
   * first and the extraction raises, while the corrected test skips it and
   * makes the card from the second.
   */
  lemma AsWrittenLoopRaises(generate: nat -> string)
    requires generate(0) == "svg" && generate(1) == SvgFence + "<svg/>" + Fence
    ensures BookmarkOf(generate, AcceptedAsWritten) == Err(IndexError)
    ensures BookmarkOf(generate, Accepted).Ok?
  {
    AsWrittenAcceptsUnparseable();
    var r := generate(1);
    assert r[..|SvgFence|] == SvgFence;
    assert OccursAt(r, SvgFence, 0);
    assert !Accepted("svg") by {
      assert |"svg"| < |SvgFence|;
    }
    assert StopAttempt(generate, Accepted, 0) == 1;
    AcceptedParses(r);
  }

  /** With the corrected test, the card is made whenever one of the three replies holds a block. */
  method BookmarkSvgCorrected(generate: nat -> string) returns (svg: Result<string>)
    ensures svg == BookmarkOf(generate, Accepted)
    ensures (exists t :: 0 <= t < MaxTries && Accepted(generate(t))) ==> svg.Ok?
    ensures svg.Err? ==> svg.error == IndexError
  {
    var card, tries := CardAttempts(generate, Accepted);
    match SvgCode(card)
    case Err(e) =>
      assert forall t :: 0 <= t < MaxTries ==> !Accepted(generate(t));
      svg := Err(e);
    case Ok(code) =>
      svg := Ok(WhiteBackground(code));
  }
}
