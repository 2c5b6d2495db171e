/**
 * `reader/report.py`: the parsed-data table is folded into four numbered
 * per-category prompts; the plot summary the model returns for the first
 * is put in front of the other three, and the four answers are combined
 * into the prompt for the final review. The model is a parameter `llm`.
 *
 * The fixed wording of the prompts is a `Wording` record; `report_parser`
 * uses `Chinese`. Everything is stated for any wording, so the proofs do
 * not depend on the text itself.
 */
module Report {
  import opened Strings

  /** The four categories of a parsed review, in table order. */
  datatype Category = Story | Feeling | Evaluation | Thinking

  /** The table columns `report_parser` reads from a row. */
  datatype Parsed = Parsed(story: string, feeling: string, evaluation: string, thinking: string)

  function Value(p: Parsed, c: Category): string {
    match c
    case Story => p.story
    case Feeling => p.feeling
    case Evaluation => p.evaluation
    case Thinking => p.thinking
  }

  /** One category's values, one per row, in table order. */
  function Column(rows: seq<Parsed>, c: Category): (vs: seq<string>)
    ensures |vs| == |rows| && forall k :: 0 <= k < |rows| ==> vs[k] == Value(rows[k], c)
  {
    seq(|rows|, (k: int) requires 0 <= k < |rows| => Value(rows[k], c))
  }

  /**
   * The fixed text of the prompts: a category prompt is `expert`, the book,
   * `intro(c)`; a numbered line is `# {id}`, `of`, `word(c)`, `described`,
   * the value; a later prompt starts with `discuss`, the book, `roughly`,
   * the plot, and ends with `ask(c)`; the final prompt is `opening`, the
   * book, then `heading(c)` and the answer for each category, then `closing`.
   */
  datatype Wording = Wording(expert: string, intro: Category -> string, of: string, word: Category -> string,
                             described: string, discuss: string, roughly: string, ask: Category -> string,
                             opening: string, heading: Category -> string, closing: string)

  // ---------------------------------------------------------------------------
  // Per-category prompts
  // ---------------------------------------------------------------------------

  /** The text a category prompt starts with, naming the book. */
  function Header(w: Wording, book: string, c: Category): string {
    w.expert + book + w.intro(c)
  }

  /** `f"# {id} 的<word>描述：{value}\n"` */
  function Entry(w: Wording, id: nat, word: string, value: string): string {
    "# " + NatToString(id) + w.of + word + w.described + value + "\n"
  }

  /** The lines `line(first, values[0])`, `line(first + 1, values[1])`, ... */
  function Lines(line: (nat, string) -> string, values: seq<string>, first: nat): string
    decreases |values|
  {
    if |values| == 0 then ""
    else line(first, values[0]) + Lines(line, values[1..], first + 1)
  }

  /** The numbered-line format of one category. */
  function LineOf(w: Wording, word: string): (nat, string) -> string {
    (id: nat, v: string) => Entry(w, id, word, v)
  }

  /** The numbered lines for `values`, the first numbered `first`. */
  function Listing(w: Wording, word: string, values: seq<string>, first: nat): string {
    Lines(LineOf(w, word), values, first)
  }

  /** The lines of two runs of values are the first's lines, then the second's, numbered on. */
  lemma {:induction false} LinesAppend(line: (nat, string) -> string, vs1: seq<string>, vs2: seq<string>, first: nat)
    ensures Lines(line, vs1 + vs2, first) == Lines(line, vs1, first) + Lines(line, vs2, first + |vs1|)
    decreases |vs1|
  {
    if |vs1| > 0 {
      assert (vs1 + vs2)[1..] == vs1[1..] + vs2;
      LinesAppend(line, vs1[1..], vs2, first + 1);
    } else {
      assert vs1 + vs2 == vs2;
    }
  }

  /** One value gives one numbered line. */
  lemma ListingOne(w: Wording, word: string, v: string, first: nat)
    ensures Listing(w, word, [v], first) == Entry(w, first, word, v)
  {
    assert [v][1..] == [];
    assert Lines(LineOf(w, word), [v][1..], first + 1) == "";
    assert LineOf(w, word)(first, v) == Entry(w, first, word, v);
  }

  /**
   * Row `k` (from 0) gets the number `first + k`: the listing is the lines
   * before it, its own line, and the lines after it.
   */
  lemma ListingNumbers(w: Wording, word: string, vs: seq<string>, first: nat, k: nat)
    requires k < |vs|
    ensures Listing(w, word, vs, first)
            == Listing(w, word, vs[..k], first) + Entry(w, first + k, word, vs[k]) + Listing(w, word, vs[k + 1..], first + k + 1)
  {
    assert vs == vs[..k] + ([vs[k]] + vs[k + 1..]);
    LinesAppend(LineOf(w, word), vs[..k], [vs[k]] + vs[k + 1..], first);
    LinesAppend(LineOf(w, word), [vs[k]], vs[k + 1..], first + k);
    ListingOne(w, word, vs[k], first + k);
  }

  /** The number of leading ASCII digits of `s`. */
  function DigitRun(s: string): (n: nat)
    ensures n <= |s|
  {
    if |s| == 0 || !IsDigit(s[0]) then 0 else 1 + DigitRun(s[1..])
  }

  /** Digits followed by a non-digit: the run is exactly the digits. */
  lemma {:induction false} DigitRunOf(a: string, x: string)
    requires forall i :: 0 <= i < |a| ==> IsDigit(a[i])
    requires |x| > 0 && !IsDigit(x[0])
    ensures DigitRun(a + x) == |a|
    decreases |a|
  {
    if |a| == 0 {
      assert a + x == x;
    } else {
      assert (a + x)[1..] == a[1..] + x;
      DigitRunOf(a[1..], x);
    }
  }

  /** Two digit runs each followed by a non-digit are read back whole. */
  lemma NumberEnds(a: string, b: string, x: string, y: string)
    requires IsDigits(a) && IsDigits(b) && |x| > 0 && |y| > 0 && !IsDigit(x[0]) && !IsDigit(y[0])
    requires a + x == b + y
    ensures a == b
  {
    DigitRunOf(a, x);
    DigitRunOf(b, y);
    assert a == (a + x)[..|a|] && b == (b + y)[..|b|];
  }

  /** A numbered line is `# `, then the number, then the rest of the line. */
  lemma EntryLayout(w: Wording, id: nat, word: string, v: string)
    ensures Entry(w, id, word, v) == "# " + (NatToString(id) + (w.of + word + w.described + v + "\n"))
  {
  }

  /**
   * A numbered line gives back its number and its value: different rows,
   * or the same row under different numbers, give different lines.
   */
  lemma EntryNumbered(w: Wording, id1: nat, id2: nat, word: string, v1: string, v2: string)
    requires |w.of| > 0 && !IsDigit(w.of[0])
    requires Entry(w, id1, word, v1) == Entry(w, id2, word, v2)
    ensures id1 == id2 && v1 == v2
  {
    var a, b := NatToString(id1), NatToString(id2);
    var t := w.of + word + w.described;
    var e1, e2 := Entry(w, id1, word, v1), Entry(w, id2, word, v2);
    EntryLayout(w, id1, word, v1);
    EntryLayout(w, id2, word, v2);
    var rest1, rest2 := t + v1 + "\n", t + v2 + "\n";
    CancelPrefix("# ", a + rest1, b + rest2);
    NumberEnds(a, b, rest1, rest2);
    NatToStringInjective(id1, id2);
    CancelPrefix(a, rest1, rest2);
    assert v1 == rest1[|t|..|rest1| - 1];
    assert v2 == rest2[|t|..|rest2| - 1];
  }

  /** The prompt `report_parser` builds for a category before the plot is known. */
  function CategoryPrompt(w: Wording, book: string, rows: seq<Parsed>, c: Category): string {
    Header(w, book, c) + Listing(w, w.word(c), Column(rows, c), 1)
  }

  /** Taking one more row adds that row's line, numbered `i + 1`, at the end. */
  lemma CategoryStep(w: Wording, book: string, rows: seq<Parsed>, i: nat, c: Category)
    requires i < |rows|
    ensures CategoryPrompt(w, book, rows[..i + 1], c)
            == CategoryPrompt(w, book, rows[..i], c) + Entry(w, i + 1, w.word(c), Value(rows[i], c))
  {
    assert Column(rows[..i + 1], c) == Column(rows[..i], c) + [Value(rows[i], c)];
    LinesAppend(LineOf(w, w.word(c)), Column(rows[..i], c), [Value(rows[i], c)], 1);
    ListingOne(w, w.word(c), Value(rows[i], c), i + 1);
  }

  /** With no rows a category prompt is its header. */
  lemma CategoryStart(w: Wording, book: string, rows: seq<Parsed>, c: Category)
    ensures CategoryPrompt(w, book, rows[..0], c) == Header(w, book, c)
  {
    assert Column(rows[..0], c) == [];
  }

  /** The loop of `report_parser`: one numbered line per row and category, rows numbered from 1. */
  method CategoryPrompts(w: Wording, book: string, rows: seq<Parsed>)
    returns (story: string, feeling: string, evaluation: string, thinking: string)
    ensures story == CategoryPrompt(w, book, rows, Story)
    ensures feeling == CategoryPrompt(w, book, rows, Feeling)
    ensures evaluation == CategoryPrompt(w, book, rows, Evaluation)
    ensures thinking == CategoryPrompt(w, book, rows, Thinking)
  {
    story, feeling := Header(w, book, Story), Header(w, book, Feeling);
    evaluation, thinking := Header(w, book, Evaluation), Header(w, book, Thinking);
    CategoryStart(w, book, rows, Story);
    CategoryStart(w, book, rows, Feeling);
    CategoryStart(w, book, rows, Evaluation);
    CategoryStart(w, book, rows, Thinking);
    var id := 0;
    for i := 0 to |rows|
      invariant id == i
      invariant story == CategoryPrompt(w, book, rows[..i], Story)
      invariant feeling == CategoryPrompt(w, book, rows[..i], Feeling)
      invariant evaluation == CategoryPrompt(w, book, rows[..i], Evaluation)
      invariant thinking == CategoryPrompt(w, book, rows[..i], Thinking)
    {
      id := id + 1;
      var row := rows[i];
      CategoryStep(w, book, rows, i, Story);
      CategoryStep(w, book, rows, i, Feeling);
      CategoryStep(w, book, rows, i, Evaluation);
      CategoryStep(w, book, rows, i, Thinking);
      story := story + Entry(w, id, w.word(Story), row.story);
      feeling := feeling + Entry(w, id, w.word(Feeling), row.feeling);
      evaluation := evaluation + Entry(w, id, w.word(Evaluation), row.evaluation);
      thinking := thinking + Entry(w, id, w.word(Thinking), row.thinking);
    }
    assert rows[..|rows|] == rows;
  }

  // ---------------------------------------------------------------------------
  // Plot first, then the other three, then the final review
  // ---------------------------------------------------------------------------

  /** The opening that puts the plot summary in front of a category prompt. */
  function PlotOpening(w: Wording, book: string, plot: string): string {
    w.discuss + book + w.roughly + plot
  }

  /** A later category prompt: the plot opening, the category prompt, the request. */
  function WithPlot(w: Wording, book: string, plot: string, rows: seq<Parsed>, c: Category): string {
    PlotOpening(w, book, plot) + CategoryPrompt(w, book, rows, c) + w.ask(c)
  }

  /** The final prompt around the four answers. */
  function ReportPrompt(w: Wording, book: string, plot: string, feeling: string, evaluation: string, thinking: string): string {
    w.opening + book + w.heading(Story) + plot + w.heading(Feeling) + feeling
    + w.heading(Evaluation) + evaluation + w.heading(Thinking) + thinking + w.closing
  }

  /**
   * The final prompt holds the four answers verbatim, at the returned
   * offsets, in the order plot, feeling, evaluation, thinking.
   */
  lemma ReportInOrder(w: Wording, book: string, plot: string, feeling: string, evaluation: string, thinking: string)
    returns (o1: nat, o2: nat, o3: nat, o4: nat)
    ensures var r := ReportPrompt(w, book, plot, feeling, evaluation, thinking);
            o1 + |plot| <= o2 && o2 + |feeling| <= o3 && o3 + |evaluation| <= o4 && o4 + |thinking| <= |r|
            && r[o1..o1 + |plot|] == plot && r[o2..o2 + |feeling|] == feeling
            && r[o3..o3 + |evaluation|] == evaluation && r[o4..o4 + |thinking|] == thinking
  {
    var p1 := w.opening + book + w.heading(Story);
    var p2 := p1 + plot + w.heading(Feeling);
    var p3 := p2 + feeling + w.heading(Evaluation);
    var p4 := p3 + evaluation + w.heading(Thinking);
    var r := ReportPrompt(w, book, plot, feeling, evaluation, thinking);
    assert r == p4 + thinking + w.closing;
    o1, o2, o3, o4 := |p1|, |p2|, |p3|, |p4|;
    assert r[o4..o4 + |thinking|] == thinking;
    assert r[..|p4|] == p4;
    assert p4[o3..o3 + |evaluation|] == evaluation;
    assert p4[..|p3|] == p3;
    assert p3[o2..o2 + |feeling|] == feeling;
    assert p3[..|p2|] == p2;
    assert p2[o1..o1 + |plot|] == plot;
  }

  /** Everything `report_parser` produces. */
  datatype Run = Run(calls: seq<string>, promptFile: string, prompt: string, reportFile: string, response: string)

  /** `report_parser(book)` on the rows of `{book}/parsed_data.csv`, for any wording. */
  function ReportParserWith(w: Wording, book: string, rows: seq<Parsed>, llm: string -> string): (r: Run)
    ensures |r.calls| == 5
    ensures r.promptFile == book + "_prompt.md" && r.reportFile == book + ".md"
    ensures r.prompt == r.calls[4] && r.response == llm(r.calls[4])
  {
    var plot := llm(CategoryPrompt(w, book, rows, Story));
    var later := [WithPlot(w, book, plot, rows, Feeling), WithPlot(w, book, plot, rows, Evaluation), WithPlot(w, book, plot, rows, Thinking)];
    var prompt := ReportPrompt(w, book, plot, llm(later[0]), llm(later[1]), llm(later[2]));
    Run([CategoryPrompt(w, book, rows, Story)] + later + [prompt], book + "_prompt.md", prompt, book + ".md", llm(prompt))
  }

  lemma WithPlotOpens(w: Wording, book: string, plot: string, rows: seq<Parsed>, c: Category)
    ensures StartsWith(WithPlot(w, book, plot, rows, c), PlotOpening(w, book, plot))
  {
    var o := PlotOpening(w, book, plot);
    assert WithPlot(w, book, plot, rows, c) == o + (CategoryPrompt(w, book, rows, c) + w.ask(c));
  }

  /**
   * The plot comes first: the first call is the story prompt alone, and
   * each of the next three starts with the book name and the model's
   * answer to it.
   */
  lemma PlotFirst(w: Wording, book: string, rows: seq<Parsed>, llm: string -> string)
    ensures var r := ReportParserWith(w, book, rows, llm);
            r.calls[0] == CategoryPrompt(w, book, rows, Story)
            && forall k :: 1 <= k < 4 ==> StartsWith(r.calls[k], PlotOpening(w, book, llm(r.calls[0])))
  {
    var plot := llm(CategoryPrompt(w, book, rows, Story));
    WithPlotOpens(w, book, plot, rows, Feeling);
    WithPlotOpens(w, book, plot, rows, Evaluation);
    WithPlotOpens(w, book, plot, rows, Thinking);
  }

  /** The final prompt holds the answers to the first four calls, in call order. */
  lemma ReportHoldsAnswers(w: Wording, book: string, rows: seq<Parsed>, llm: string -> string)
    ensures var r := ReportParserWith(w, book, rows, llm);
            r.prompt == ReportPrompt(w, book, llm(r.calls[0]), llm(r.calls[1]), llm(r.calls[2]), llm(r.calls[3]))
  {
  }

  // ---------------------------------------------------------------------------
  // The wording of reader/report.py
  // ---------------------------------------------------------------------------

  function ChineseIntro(c: Category): string {
    match c
    case Story => "，以下是一些用户对这本书剧情的描述，\n    请根据这些描述，用 1000-2000 字描述这本书的剧情。\n    \n    "
    case Feeling => "，以下是一些用户对这本书的感受，\n    "
    case Evaluation => "，以下是一些用户对这本书的评价，\n    "
    case Thinking => "，以下是一些用户对这本书的思考，\n    "
  }

  function ChineseWord(c: Category): string {
    match c
    case Story => "剧情"
    case Feeling => "感受"
    case Evaluation => "评价"
    case Thinking => "思考"
  }

  function ChineseAsk(c: Category): string {
    match c
    case Story => ""
    case Feeling => "请根据这些描述，用 2000-3000 字你阅读这本书的感受。"
    case Evaluation => "请根据这些描述，用 2000-3000 字你阅读这本书的评价。分别探讨这本书的优点和缺点。"
    case Thinking => "请根据这些描述，用 3000-5000 字说说你阅读这本书的思考。可以一定程度上引申和拔高主题。"
  }

  function ChineseHeading(c: Category): string {
    match c
    case Story => "\n    \n    # 大致剧情：\n    "
    case Feeling => "\n    \n    # 感受：\n    "
    case Evaluation => "\n    \n    # 评价：\n    "
    case Thinking => "\n    \n    # 思考：\n    "
  }

  const Chinese := Wording(
    "\n    你是一个书评专家，我们在讨论的书是", ChineseIntro, " 的", ChineseWord, "描述：",
    "我们今天来讨论一下 ", "，这本书大致说了：", ChineseAsk,
    "帮我写一篇有深度的书评, 必须完整包含后面的所有内容：\n    书名是", ChineseHeading,
    "\n    \n    \n    请用 markdown 格式输出，请严格遵循：\n    - 不要包含任何除了 markdown 文档以外的其他内容。\n    - 长度接近 8000 字。\n    - 不要提到「用户xx认为」，的观点，用第一人称写书评。\n    ")

  /** `report_parser(book)` */
  function ReportParser(book: string, rows: seq<Parsed>, llm: string -> string): (r: Run)
    ensures |r.calls| == 5 && r.response == llm(r.prompt)
    ensures r.prompt == ReportPrompt(Chinese, book, llm(r.calls[0]), llm(r.calls[1]), llm(r.calls[2]), llm(r.calls[3]))
  {
    ReportHoldsAnswers(Chinese, book, rows, llm);
    ReportParserWith(Chinese, book, rows, llm)
  }

  /** The numbered lines of `report_parser` are told apart by their numbers. */
  lemma ChineseLinesNumbered()
    ensures |Chinese.of| > 0 && !IsDigit(Chinese.of[0])
  {
  }
}
