/**
 * The group reading chat of the Chinese site (`website/chatbot.py`): three
 * generated personas talk about a book with the user. The page keeps four
 * logs — the shown group chat and one history per persona — and fans every
 * message out to all of them.
 */
module Chat {
  import opened Outcomes
  import opened Strings
  import opened Conversation
  import opened Personas

  /** `message1`, `message2`, `message3`: one history per persona. */
  type Histories = h: seq<History> | |h| == 3 witness [[], [], []]

  /** The four logs: `messages`, the group chat shown, and the personas' own histories. */
  datatype Logs = Logs(main: History, own: Histories)

  const NoLogs: Logs := Logs([], [[], [], []])

  /** `initial_prompt1` to `initial_prompt3`. */
  type Cast = s: seq<Persona> | |s| == 3
    witness [Persona("", "", "", "", []), Persona("", "", "", "", []), Persona("", "", "", "", [])]

  /** The page's session; `None` stands for a key not yet set or set to `None`. */
  datatype Room = Room(logs: Logs, cast: Option<Cast>, previousBook: Option<string>, bookPrompt: Option<string>,
                       systemPrompt: Option<string>, lastResponse: Option<string>)

  /** The session as the page first sets it up. */
  const Opened: Room := Room(NoLogs, None, None, None, None, None)

  /** The display names of the cast, in persona order. */
  function Names(cast: Cast): (names: seq<string>)
    ensures |names| == 3 && forall k :: 0 <= k < 3 ==> names[k] == cast[k].preferenceName
  {
    [cast[0].preferenceName, cast[1].preferenceName, cast[2].preferenceName]
  }

  // ---------------------------------------------------------------------------
  // Choosing a book
  // ---------------------------------------------------------------------------

  /**
   * Choosing a book, whose prompt file reads `text`: the first choice is
   * remembered; another book than the remembered one empties all four logs,
   * resets the system prompt and the last response and asks for a rerun; the
   * same book changes nothing. The cast is kept either way.
   */
  function SelectBook(room: Room, book: string, text: string): (r: (Room, bool))
    ensures r.0.previousBook == Some(book) && r.0.cast == room.cast
    ensures r.1 <==> room.previousBook.Some? && room.previousBook.value != book
    ensures r.1 ==> r.0.logs == NoLogs
    ensures !r.1 ==> r.0.logs == room.logs
    ensures room.previousBook != Some(book) ==>
              r.0.bookPrompt == Some(text) && r.0.systemPrompt.None? && r.0.lastResponse.None?
    ensures room.previousBook == Some(book) ==> r.0 == room
  {
    match room.previousBook
    case None => (room.(previousBook := Some(book), systemPrompt := None, bookPrompt := Some(text),
                        lastResponse := None), false)
    case Some(previous) =>
      if previous != book then
        (room.(logs := NoLogs, previousBook := Some(book), bookPrompt := Some(text), systemPrompt := None,
               lastResponse := None), true)
      else (room, false)
  }

  /** After the rerun, choosing the same book again changes nothing. */
  lemma SelectBookIdempotent(room: Room, book: string, text: string, again: string)
    ensures SelectBook(SelectBook(room, book, text).0, book, again) == (SelectBook(room, book, text).0, false)
  {
  }

  // ---------------------------------------------------------------------------
  // Fanning messages out
  // ---------------------------------------------------------------------------

  /** A user message goes into all four logs. */
  function Broadcast(logs: Logs, text: string): (r: Logs)
    ensures r.main == logs.main + [Message(User, text)]
    ensures forall j :: 0 <= j < 3 ==> r.own[j] == logs.own[j] + [Message(User, text)]
  {
    var m := Message(User, text);
    Logs(logs.main + [m], [logs.own[0] + [m], logs.own[1] + [m], logs.own[2] + [m]])
  }

  /**
   * Persona `k` says `text`: the group chat shows it as `assistantK`, its own
   * history as `assistant`, and the other two histories under role `others`.
   */
  function Post(logs: Logs, k: nat, text: string, others: Role): (r: Logs)
    requires k < 3
    ensures r.main == logs.main + [Message(Speaker(k), text)]
    ensures forall j :: 0 <= j < 3 ==> r.own[j] == logs.own[j] + [Message(if j == k then Assistant else others, text)]
  {
    var seen := (j: nat) => Message(if j == k then Assistant else others, text);
    Logs(logs.main + [Message(Speaker(k), text)],
         [logs.own[0] + [seen(0)], logs.own[1] + [seen(1)], logs.own[2] + [seen(2)]])
  }

  // ---------------------------------------------------------------------------
  // One round of replies
  // ---------------------------------------------------------------------------

  /** `random.shuffle([1, 2, 3])`: any arrangement of the three persona numbers. */
  type Shuffle = s: seq<int> | |s| == 3 && multiset(s) == multiset{1, 2, 3} witness [1, 2, 3]

  /** The branch the loop takes for persona number `i`: 1 and 2 pick their own, anything else the third. */
  function SpeakerOf(i: int): (k: nat)
    ensures k < 3
    ensures 1 <= i <= 3 ==> k == i - 1
  {
    if i == 1 then 0 else if i == 2 then 1 else 2
  }

  /** One entry of `responses`: who spoke, under which name and avatar, and what. */
  datatype Reply = Reply(speaker: nat, name: string, emoji: string, text: string)

  /**
   * Persona `k`'s contribution: the model's raw reply to the persona's own
   * history, rewritten by the style model under the persona's style prompt,
   * which quotes `last`, the message it answers.
   */
  function Styled(w: StyleWording, cast: Cast, k: nat, history: History, last: string,
                  chat: History -> string, stylist: History -> string): string
    requires k < 3
  {
    var p := cast[k];
    var style := StylePrompt(w, p.styleGuide, p.preferenceType, p.preferenceName, Text(last));
    stylist([Message(System, style.value), Message(User, chat(history))])
  }

  /** The personas' voices for one round: what persona `k` says in answer to `last`. */
  function Voices(w: StyleWording, cast: Cast, own: Histories, chat: History -> string, stylist: History -> string)
    : (answer: (nat, string) -> string)
    ensures forall k: nat, last: string :: k < 3 ==> answer(k, last) == Styled(w, cast, k, own[k], last, chat, stylist)
  {
    (k: nat, last: string) => var j := if k < 3 then k else 2; Styled(w, cast, j, own[j], last, chat, stylist)
  }

  /**
   * The replies in `order`, each persona answering the reply before it (the
   * first answers `last`).
   */
  function Replies(order: seq<int>, cast: Cast, answer: (nat, string) -> string, last: string): (rs: seq<Reply>)
    ensures |rs| == |order|
    decreases |order|
  {
    if |order| == 0 then []
    else
      var k := SpeakerOf(order[0]);
      var text := answer(k, last);
      [Reply(k, cast[k].preferenceName, cast[k].emoji, text)] + Replies(order[1..], cast, answer, text)
  }

  /**
   * The reply loop of a turn: `last_response` starts as the user's prompt and
   * follows each reply.
   */
  method ReplyLoop(order: seq<int>, cast: Cast, answer: (nat, string) -> string, prompt: string)
    returns (rs: seq<Reply>, last: string)
    ensures rs == Replies(order, cast, answer, prompt)
    ensures last == if |rs| == 0 then prompt else rs[|rs| - 1].text
  {
    rs := [];
    last := prompt;
    var i := 0;
    while i < |order|
      invariant 0 <= i <= |order| && |rs| == i
      invariant rs + Replies(order[i..], cast, answer, last) == Replies(order, cast, answer, prompt)
      invariant last == if i == 0 then prompt else rs[i - 1].text
    {
      var k := SpeakerOf(order[i]);
      var text := answer(k, last);
      var reply := Reply(k, cast[k].preferenceName, cast[k].emoji, text);
      var later := Replies(order[i + 1..], cast, answer, text);
      assert order[i..][1..] == order[i + 1..];
      assert Replies(order[i..], cast, answer, last) == [reply] + later;
      AppendAssociates(rs, [reply], later);
      rs := rs + [reply];
      last := text;
      i := i + 1;
    }
    assert order[i..] == [];
  }

  /** Each reply comes from the persona its order entry names, and answers the reply before it. */
  lemma {:induction false} ReplyContext(order: seq<int>, cast: Cast, answer: (nat, string) -> string, last: string,
                                        t: nat)
    requires t < |order|
    ensures var rs := Replies(order, cast, answer, last);
            var k := SpeakerOf(order[t]);
            rs[t].speaker == k && rs[t].name == cast[k].preferenceName && rs[t].emoji == cast[k].emoji
            && rs[t].text == answer(k, if t == 0 then last else rs[t - 1].text)
    decreases t
  {
    var rs := Replies(order, cast, answer, last);
    var k0 := SpeakerOf(order[0]);
    var first := answer(k0, last);
    var rest := Replies(order[1..], cast, answer, first);
    assert rs == [Reply(k0, cast[k0].preferenceName, cast[k0].emoji, first)] + rest;
    if t > 0 {
      ReplyContext(order[1..], cast, answer, first, t - 1);
      assert order[1..][t - 1] == order[t];
      assert rs[t] == rest[t - 1];
      if t > 1 {
        assert rs[t - 1] == rest[t - 2];
      }
    }
  }

  /** A shuffle of 1, 2, 3 lets every persona speak exactly once in a round. */
  lemma EachSpeaksOnce(order: Shuffle, cast: Cast, answer: (nat, string) -> string, last: string)
    ensures var rs := Replies(order, cast, answer, last);
            |rs| == 3 && {rs[0].speaker, rs[1].speaker, rs[2].speaker} == {0, 1, 2}
  {
    ReplyContext(order, cast, answer, last, 0);
    ReplyContext(order, cast, answer, last, 1);
    ReplyContext(order, cast, answer, last, 2);
    assert order == [order[0], order[1], order[2]];
    assert order[0] in multiset(order) && order[1] in multiset(order) && order[2] in multiset(order);
    assert 1 in multiset(order) && 2 in multiset(order) && 3 in multiset(order);
  }

  /** `combined_message`: one `name：reply` line per reply, in speaking order. */
  function Combined(rs: seq<Reply>): (text: string)
    ensures |rs| > 0 ==> StartsWith(text, rs[0].name + "：")
  {
    if |rs| == 0 then ""
    else
      var line := rs[0].name + "：" + rs[0].text;
      var text := line + "\n" + Combined(rs[1..]);
      assert text[..|rs[0].name + "："|] == rs[0].name + "：";
      text
  }

  /** The lines of the combined message, one per reply. */
  function Lines(rs: seq<Reply>): (lines: seq<string>)
    ensures |lines| == |rs|
    ensures forall t :: 0 <= t < |rs| ==> StartsWith(lines[t], rs[t].name + "：")
  {
    if |rs| == 0 then []
    else
      var line := rs[0].name + "：" + rs[0].text;
      assert line[..|rs[0].name + "："|] == rs[0].name + "：";
      [line] + Lines(rs[1..])
  }

  /**
   * Without line breaks in names and replies, cutting the combined message at
   * its line breaks gives back one line per reply, in order, and an empty tail.
   */
  lemma {:induction false} CombinedSplits(rs: seq<Reply>)
    requires forall t :: 0 <= t < |rs| ==> '\n' !in rs[t].name && '\n' !in rs[t].text
    ensures Split(Combined(rs), "\n") == Lines(rs) + [""]
    decreases |rs|
  {
    if |rs| == 0 {
      SplitNoSep("", "\n");
    } else {
      var line := rs[0].name + "：" + rs[0].text;
      assert '\n' !in line;
      assert Combined(rs) == line + ['\n'] + Combined(rs[1..]);
      SplitCutChar(line, '\n', Combined(rs[1..]));
      CombinedSplits(rs[1..]);
      assert Lines(rs) == [line] + Lines(rs[1..]);
    }
  }

  // ---------------------------------------------------------------------------
  // Routing the rephrased lines
  // ---------------------------------------------------------------------------

  /** The line is signed by `name`, with a full-width or an ASCII colon. */
  predicate Says(line: string, name: string) {
    Contains(line, name + "：") || Contains(line, name + ":")
  }

  /** The first of the three names the line is signed by. */
  function FirstSpeaker(line: string, names: seq<string>): (k: Option<nat>)
    requires |names| == 3
    ensures k.Some? ==> k.value < 3 && Says(line, names[k.value])
                        && forall j :: 0 <= j < k.value ==> !Says(line, names[j])
    ensures k.None? ==> forall j :: 0 <= j < 3 ==> !Says(line, names[j])
  {
    if Says(line, names[0]) then Some(0)
    else if Says(line, names[1]) then Some(1)
    else if Says(line, names[2]) then Some(2)
    else None
  }

  /** Each line goes to the first persona it is signed by; unsigned lines are dropped. */
  function Route(logs: Logs, names: seq<string>, lines: seq<string>): Logs
    requires |names| == 3
    decreases |lines|
  {
    if |lines| == 0 then logs
    else
      match FirstSpeaker(lines[0], names)
      case Some(k) => Route(Post(logs, k, lines[0], Speaker(k)), names, lines[1..])
      case None => Route(logs, names, lines[1..])
  }

  /** The group-chat messages the signed lines become, in order. */
  function Routed(names: seq<string>, lines: seq<string>): (h: History)
    requires |names| == 3
    ensures |h| <= |lines|
  {
    if |lines| == 0 then []
    else
      match FirstSpeaker(lines[0], names)
      case Some(k) => [Message(Speaker(k), lines[0])] + Routed(names, lines[1..])
      case None => Routed(names, lines[1..])
  }

  /** The group chat as persona `j` keeps it: its own messages are its `assistant` turns. */
  function SeenBy(j: nat, h: History): (v: History)
    ensures |v| == |h|
  {
    seq(|h|, t requires 0 <= t < |h| => if h[t].role == Speaker(j) then Message(Assistant, h[t].content) else h[t])
  }

  lemma SeenByAppend(j: nat, a: History, b: History)
    ensures SeenBy(j, a + b) == SeenBy(j, a) + SeenBy(j, b)
  {
    assert forall t :: 0 <= t < |b| ==> (a + b)[|a| + t] == b[t];
  }

  /**
   * Routing appends the signed lines to the group chat, and to every
   * persona's history the same messages as that persona sees them: the
   * histories stay in step with the group chat.
   */
  lemma {:induction false} RouteFansOut(logs: Logs, names: seq<string>, lines: seq<string>)
    requires |names| == 3
    ensures Route(logs, names, lines).main == logs.main + Routed(names, lines)
    ensures forall j :: 0 <= j < 3 ==> Route(logs, names, lines).own[j] == logs.own[j] + SeenBy(j, Routed(names, lines))
    decreases |lines|
  {
    if |lines| == 0 {
      assert forall j :: 0 <= j < 3 ==> logs.own[j] + SeenBy(j, []) == logs.own[j];
    } else {
      match FirstSpeaker(lines[0], names)
      case None =>
        RouteFansOut(logs, names, lines[1..]);
      case Some(k) =>
        var next := Post(logs, k, lines[0], Speaker(k));
        RouteFansOut(next, names, lines[1..]);
        var rest := Routed(names, lines[1..]);
        assert Routed(names, lines) == [Message(Speaker(k), lines[0])] + rest;
        PostThenRest(logs, k, lines[0], rest);
    }
  }

  /** Posting a signed line and then the rest is appending the line's message and the rest. */
  lemma PostThenRest(logs: Logs, k: nat, line: string, rest: History)
    requires k < 3
    ensures var next := Post(logs, k, line, Speaker(k));
            var m := Message(Speaker(k), line);
            next.main + rest == logs.main + ([m] + rest)
            && forall j :: 0 <= j < 3 ==> next.own[j] + SeenBy(j, rest) == logs.own[j] + SeenBy(j, [m] + rest)
  {
    var m := Message(Speaker(k), line);
    forall j | 0 <= j < 3
      ensures Post(logs, k, line, Speaker(k)).own[j] + SeenBy(j, rest) == logs.own[j] + SeenBy(j, [m] + rest)
    {
      SeenByAppend(j, [m], rest);
      assert SeenBy(j, [m]) == [Message(if j == k then Assistant else Speaker(k), line)];
    }
  }

  /**
   * A message is routed exactly when some line is signed, and it carries that
   * line under the role of the first persona the line is signed by.
   */
  lemma {:induction false} RoutedMembers(names: seq<string>, lines: seq<string>, m: Message)
    requires |names| == 3
    ensures m in Routed(names, lines) <==>
            exists t :: 0 <= t < |lines| && FirstSpeaker(lines[t], names).Some?
                        && m == Message(Speaker(FirstSpeaker(lines[t], names).value), lines[t])
    decreases |lines|
  {
    if |lines| > 0 {
      RoutedMembers(names, lines[1..], m);
      var head := match FirstSpeaker(lines[0], names)
                  case Some(k) => [Message(Speaker(k), lines[0])]
                  case None => [];
      assert Routed(names, lines) == head + Routed(names, lines[1..]);
      if exists t :: 0 <= t < |lines| && FirstSpeaker(lines[t], names).Some?
                     && m == Message(Speaker(FirstSpeaker(lines[t], names).value), lines[t]) {
        var t :| 0 <= t < |lines| && FirstSpeaker(lines[t], names).Some?
                 && m == Message(Speaker(FirstSpeaker(lines[t], names).value), lines[t]);
        if t > 0 { assert lines[1..][t - 1] == lines[t]; }
      }
      if m in Routed(names, lines[1..]) {
        var t :| 0 <= t < |lines[1..]| && FirstSpeaker(lines[1..][t], names).Some?
                 && m == Message(Speaker(FirstSpeaker(lines[1..][t], names).value), lines[1..][t]);
        assert lines[t + 1] == lines[1..][t];
      }
    }
  }

  // ---------------------------------------------------------------------------
  // Starting to read and taking turns
  // ---------------------------------------------------------------------------

  const GreetingLead: string := "你好，今天我们聊聊"
  const GreetingEnd: string := "这本书吧。"

  /** The user's opening line, naming the book. */
  function Greeting(book: string): string {
    GreetingLead + book + GreetingEnd
  }

  /** Each persona's history before the first round: its system prompt and the greeting. */
  function Starts(cast: Cast, bookPrompt: string, greeting: string): (own: Histories)
    ensures forall j :: 0 <= j < 3 ==>
              own[j] == [Message(System, bookPrompt + "\n" + cast[j].prompt), Message(User, greeting)]
  {
    var start := (j: nat) requires j < 3 =>
      [Message(System, bookPrompt + "\n" + cast[j].prompt), Message(User, greeting)];
    [start(0), start(1), start(2)]
  }

  /** The opening round in persona order: each reply shown, and seen by the others as a user message. */
  function Opening(own: Histories, greeting: string, rs: seq<Reply>): (logs: Logs)
    requires |rs| == 3
  {
    var logs := Logs([Message(User, greeting)], own);
    Post(Post(Post(logs, 0, rs[0].text, User), 1, rs[1].text, User), 2, rs[2].text, User)
  }

  /** The opening logs: every history holds the same five messages, seen from its persona. */
  lemma OpeningShape(own: Histories, greeting: string, rs: seq<Reply>)
    requires |rs| == 3 && forall j :: 0 <= j < 3 ==> |own[j]| == 2
    ensures var logs := Opening(own, greeting, rs);
            logs.main == [Message(User, greeting), Message(Speaker(0), rs[0].text), Message(Speaker(1), rs[1].text),
                          Message(Speaker(2), rs[2].text)]
            && forall j, k :: 0 <= j < 3 && 0 <= k < 3 ==>
                 |logs.own[j]| == 5 && logs.own[j][..2] == own[j]
                 && logs.own[j][2 + k] == Message(if j == k then Assistant else User, rs[k].text)
  {
  }

  /** The personas drawn for a book, as a cast, with the book prompt. */
  method DrawCast(c: Catalogue, book: string, text: string, sample: MbtiSample, bits: AttitudeDraw)
    returns (cast: Cast, bookPrompt: string)
    requires Drawable(c)
    ensures forall i :: 0 <= i < 3 ==> InCell(c, cast[i], i, Bit(bits, i))
    ensures forall i, j :: 0 <= i < j < 3 ==> cast[i].prompt != cast[j].prompt
    ensures bookPrompt == BookPrompt(c.book, book, text)
  {
    var personas;
    personas, bookPrompt := ThreePersons(c, book, text, sample, bits);
    cast := personas;
  }

  /**
   * "Start reading": three personas are drawn from the catalogue `c` (`sample`
   * and `bits` are the random draws), every history is set to the persona's
   * system prompt and the greeting, and the personas answer in order 1, 2, 3,
   * each styled against the message before it. The page passes the Chinese
   * catalogue and wording, which `ChineseDrawable` shows drawable.
   */
  method StartReading(room: Room, c: Catalogue, style: StyleWording, book: string, text: string, sample: MbtiSample,
                      bits: AttitudeDraw, chat: History -> string, stylist: History -> string) returns (r: Room)
    requires Drawable(c)
    ensures r.cast.Some? && r.bookPrompt.Some?
    ensures forall i :: 0 <= i < 3 ==> InCell(c, r.cast.value[i], i, Bit(bits, i))
    ensures forall i, j :: 0 <= i < j < 3 ==> r.cast.value[i].prompt != r.cast.value[j].prompt
    ensures r.bookPrompt.value == BookPrompt(c.book, book, text)
    ensures var own := Starts(r.cast.value, r.bookPrompt.value, Greeting(book));
            var rs := Replies([1, 2, 3], r.cast.value, Voices(style, r.cast.value, own, chat, stylist), Greeting(book));
            r.logs == Opening(own, Greeting(book), rs) && r.lastResponse == Some(rs[2].text)
    ensures r.previousBook == room.previousBook && r.systemPrompt == room.systemPrompt
  {
    var cast, bookPrompt := DrawCast(c, book, text, sample, bits);
    var greeting := Greeting(book);
    var own := Starts(cast, bookPrompt, greeting);
    var rs, last := ReplyLoop([1, 2, 3], cast, Voices(style, cast, own, chat, stylist), greeting);
    assert |rs| == 3 && last == rs[2].text;
    var logs := Opening(own, greeting, rs);
    r := Room(logs, Some(cast), room.previousBook, Some(bookPrompt), room.systemPrompt, Some(last));
  }

  /** `message_rephrase` on the style model: its system prompt and the combined message as one chat. */
  function Rephraser(stylist: History -> string): (llm: (string, string) -> string)
    ensures forall sys, user :: llm(sys, user) == stylist([Message(System, sys), Message(User, user)])
  {
    (sys: string, user: string) => stylist([Message(System, sys), Message(User, user)])
  }

  /**
   * A user turn for a given rephrase system prompt, built from the three
   * names: the prompt goes into all four logs; without a cast, reading the
   * personas' names raises. Otherwise the personas answer in the drawn
   * order, the combined answers are rephrased into chat lines, and the lines
   * are routed.
   */
  function TurnWith(room: Room, prompt: string, order: Shuffle, style: StyleWording,
                    system: (string, string, string) -> string,
                    chat: History -> string, stylist: History -> string)
    : (r: (Room, Option<PyError>))
    ensures r.1.Some? <==> room.cast.None?
    ensures r.1.Some? ==> r.1.value == TypeError && r.0 == room.(logs := Broadcast(room.logs, prompt))
    ensures r.0.cast == room.cast && r.0.previousBook == room.previousBook
  {
    var logs := Broadcast(room.logs, prompt);
    match room.cast
    case None => (room.(logs := logs), Some(TypeError))
    case Some(cast) =>
      var rs := Replies(order, cast, Voices(style, cast, logs.own, chat, stylist), prompt);
      var names := Names(cast);
      var lines := RephraseWith(Rephraser(stylist), system(names[0], names[1], names[2]), Combined(rs));
      (room.(logs := Route(logs, names, lines), lastResponse := Some(rs[|rs| - 1].text)), None)
  }

  /** A turn of the page as written: the rephrase prompt is the plain string. */
  function Turn(room: Room, prompt: string, order: Shuffle, style: StyleWording, rephrase: RephraseWording,
                chat: History -> string, stylist: History -> string)
    : (r: (Room, Option<PyError>))
    ensures r.1.Some? <==> room.cast.None?
    ensures r.1.Some? ==> r.1.value == TypeError && r.0 == room.(logs := Broadcast(room.logs, prompt))
    ensures r.0.cast == room.cast && r.0.previousBook == room.previousBook
  {
    TurnWith(room, prompt, order, style, (a, b, c) => RephrasePromptAsWritten(rephrase, a, b, c), chat, stylist)
  }

  /** A turn with the names written into the rephrase prompt. */
  function TurnCorrected(room: Room, prompt: string, order: Shuffle, style: StyleWording, rephrase: RephraseWording,
                         chat: History -> string, stylist: History -> string)
    : (r: (Room, Option<PyError>))
    ensures r.1.Some? <==> room.cast.None?
    ensures r.1.Some? ==> r.1.value == TypeError && r.0 == room.(logs := Broadcast(room.logs, prompt))
    ensures r.0.cast == room.cast && r.0.previousBook == room.previousBook
  {
    TurnWith(room, prompt, order, style, (a, b, c) => RephrasePrompt(rephrase, a, b, c), chat, stylist)
  }

  /** With a cast, a turn routes the lines rephrased under its prompt of the replies drawn in the given order. */
  lemma TurnWithRoutes(room: Room, prompt: string, order: Shuffle, style: StyleWording,
                       system: (string, string, string) -> string,
                       chat: History -> string, stylist: History -> string)
    requires room.cast.Some?
    ensures var cast := room.cast.value;
            var logs := Broadcast(room.logs, prompt);
            var rs := Replies(order, cast, Voices(style, cast, logs.own, chat, stylist), prompt);
            var lines := RephraseWith(Rephraser(stylist),
                                      system(cast[0].preferenceName, cast[1].preferenceName, cast[2].preferenceName),
                                      Combined(rs));
            var r := TurnWith(room, prompt, order, style, system, chat, stylist).0;
            r.logs == Route(logs, Names(cast), lines) && r.lastResponse == Some(rs[2].text)
  {
  }

  /**
   * As written, with a cast, the turn routes the lines the style model
   * gives for the placeholder prompt, whatever the personas are called.
   */
  lemma TurnRoutes(room: Room, prompt: string, order: Shuffle, style: StyleWording, rephrase: RephraseWording,
                   chat: History -> string, stylist: History -> string)
    requires room.cast.Some?
    ensures var cast := room.cast.value;
            var logs := Broadcast(room.logs, prompt);
            var rs := Replies(order, cast, Voices(style, cast, logs.own, chat, stylist), prompt);
            var lines := RephraseWith(Rephraser(stylist), RephrasePrompt(rephrase, "{name1}", "{name2}", "{name3}"),
                                      Combined(rs));
            var r := Turn(room, prompt, order, style, rephrase, chat, stylist).0;
            r.logs == Route(logs, Names(cast), lines) && r.lastResponse == Some(rs[2].text)
  {
    var cast := room.cast.value;
    TurnWithRoutes(room, prompt, order, style, (a, b, c) => RephrasePromptAsWritten(rephrase, a, b, c), chat, stylist);
    assert RephrasePromptAsWritten(rephrase, cast[0].preferenceName, cast[1].preferenceName, cast[2].preferenceName)
           == RephrasePrompt(rephrase, "{name1}", "{name2}", "{name3}");
  }

  /** Corrected, the turn routes the lines the style model gives for the prompt naming the personas. */
  lemma TurnCorrectedRoutes(room: Room, prompt: string, order: Shuffle, style: StyleWording, rephrase: RephraseWording,
                            chat: History -> string, stylist: History -> string)
    requires room.cast.Some?
    ensures var cast := room.cast.value;
            var logs := Broadcast(room.logs, prompt);
            var rs := Replies(order, cast, Voices(style, cast, logs.own, chat, stylist), prompt);
            var lines := RephraseCorrected(Rephraser(stylist), rephrase, Combined(rs),
                                           cast[0].preferenceName, cast[1].preferenceName, cast[2].preferenceName);
            var r := TurnCorrected(room, prompt, order, style, rephrase, chat, stylist).0;
            r.logs == Route(logs, Names(cast), lines) && r.lastResponse == Some(rs[2].text)
  {
    TurnWithRoutes(room, prompt, order, style, (a, b, c) => RephrasePrompt(rephrase, a, b, c), chat, stylist);
  }

  /**
   * A turn as written, with a cast: the group chat gains the prompt and
   * then the routed lines of the rephrased answers; every persona's history
   * gains the same, seen from that persona; and the last response is the
   * last persona's.
   */
  lemma TurnFansOut(room: Room, prompt: string, order: Shuffle, style: StyleWording, rephrase: RephraseWording,
              chat: History -> string, stylist: History -> string)
    requires room.cast.Some?
    ensures var cast := room.cast.value;
            var logs := Broadcast(room.logs, prompt);
            var rs := Replies(order, cast, Voices(style, cast, logs.own, chat, stylist), prompt);
            var lines := RephraseWith(Rephraser(stylist), RephrasePrompt(rephrase, "{name1}", "{name2}", "{name3}"),
                                      Combined(rs));
            var r := Turn(room, prompt, order, style, rephrase, chat, stylist).0;
            r.logs.main == room.logs.main + [Message(User, prompt)] + Routed(Names(cast), lines)
            && (forall j :: 0 <= j < 3 ==>
                  r.logs.own[j] == room.logs.own[j] + [Message(User, prompt)] + SeenBy(j, Routed(Names(cast), lines)))
            && r.lastResponse == Some(rs[2].text)
  {
    var cast := room.cast.value;
    var logs := Broadcast(room.logs, prompt);
    var rs := Replies(order, cast, Voices(style, cast, logs.own, chat, stylist), prompt);
    var lines := RephraseWith(Rephraser(stylist), RephrasePrompt(rephrase, "{name1}", "{name2}", "{name3}"),
                              Combined(rs));
    var names := Names(cast);
    var r := Turn(room, prompt, order, style, rephrase, chat, stylist).0;
    assert r.logs == Route(logs, names, lines) && r.lastResponse == Some(rs[2].text) by {
      TurnRoutes(room, prompt, order, style, rephrase, chat, stylist);
    }
    RouteFansOut(logs, names, lines);
  }

  // ---------------------------------------------------------------------------
  // Showing the group chat
  // ---------------------------------------------------------------------------

  /** The avatar and text one message is shown with; `None` for a system message, which is skipped. */
  function Shown(m: Message, cast: Cast): (r: Option<(string, string)>)
    ensures r.None? <==> m.role == System
    ensures m.role.Speaker? && m.role.k < 3
            ==> r == Some((cast[m.role.k].emoji, cast[m.role.k].preferenceName + "：" + m.content))
    ensures m.role != System && !(m.role.Speaker? && m.role.k < 3) ==> r == Some(("user", m.content))
  {
    match m.role
    case System => None
    case Speaker(k) =>
      if k < 3 then Some((cast[k].emoji, cast[k].preferenceName + "：" + m.content)) else Some(("user", m.content))
    case _ => Some(("user", m.content))
  }

  /** The messages that are not system messages, in order. */
  function NonSystem(h: History): (r: History)
    ensures |r| <= |h|
    ensures forall m :: m in r <==> m in h && m.role != System
  {
    if |h| == 0 then []
    else
      assert h == [h[0]] + h[1..];
      (if h[0].role == System then [] else [h[0]]) + NonSystem(h[1..])
  }

  /**
   * The shown chat: every non-system message with its avatar; the loop reads
   * the cast's names for each such message, so without a cast it raises.
   */
  function Display(messages: History, cast: Option<Cast>): (r: Result<seq<(string, string)>>)
    ensures r.Ok? <==> cast.Some? || forall t :: 0 <= t < |messages| ==> messages[t].role == System
    ensures r.Err? ==> r.error == TypeError
    ensures r.Ok? ==> |r.value| <= |messages|
    ensures r.Ok? ==> |r.value| == |NonSystem(messages)|
    ensures r.Ok? ==> forall i :: 0 <= i < |r.value| ==>
                        cast.Some? && Shown(NonSystem(messages)[i], cast.value) == Some(r.value[i])
  {
    if |messages| == 0 then Ok([])
    else
      var rest := Display(messages[1..], cast);
      assert forall t :: 1 <= t < |messages| ==> messages[t] == messages[1..][t - 1];
      if messages[0].role == System then rest
      else
        match cast
        case None => Err(TypeError)
        case Some(c) =>
          match rest
          case Err(e) => Err(e)
          case Ok(shown) => Ok([Shown(messages[0], c).value] + shown)
  }
}
