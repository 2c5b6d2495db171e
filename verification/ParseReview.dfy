/**
 * `reader/parse_review.py`: each cleaned review or transcript is split by
 * the language model into its story, feeling, evaluation and thinking
 * parts, and becomes one row of the parsed-data table together with its
 * source and source URL.
 */
module ParseReview {
  import opened Strings
  import opened Paths

  // ---------------------------------------------------------------------------
  // review_parser
  // ---------------------------------------------------------------------------

  const Placeholder := "<REVIEW>"

  /** A prompt template: the text around its one `<REVIEW>` placeholder. */
  datatype Template = Template(head: string, tail: string)
  {
    function Text(): string {
      head + Placeholder + tail
    }

    /** No `<` outside the placeholder, so the placeholder is the only match. */
    predicate Clean() {
      '<' !in head && '<' !in tail
    }
  }

  const Ask := "帮我从书评中找到这本书的"
  const Rules := "部分。请严格遵循以下规则：\n- 输出所有和"
  const Related := "部分相关的句子\n"
  const Faithful := "- 请严格遵循书评原文的文本，不要进行任何修改\n\n书评：\n"
  const OffTopic := "- 和书本内容无关的句子都算是评论者的思考\n"
  const AboutAuthor := "- 和作者相关的生平经历也算做是评论者的思考\n"
  /** The thinking template's two extra rules. */
  const Unrelated := OffTopic + AboutAuthor

  /** The head of a template: which part to find, extra rules, and the fixed wording around them. */
  function Head(part: string, extra: string): string {
    Ask + part + Rules + part + Related + extra + Faithful
  }

  const StoryTemplate := Template(Head("剧情", ""), "\n\n剧情：\n")
  const FeelingTemplate := Template(Head("感受", ""), "\n\n阅读感受：\n")
  const EvaluationTemplate := Template(Head("评价", ""), "\n\n评价：\n")
  const ThinkingTemplate := Template(Head("思考", Unrelated), "\n\n思考：\n")

  /** The templates in the order `review_parser` sends them: story, feeling, evaluation, thinking. */
  const Templates := [StoryTemplate, FeelingTemplate, EvaluationTemplate, ThinkingTemplate]

  /** `template.replace("<REVIEW>", review)` */
  function Fill(t: Template, review: string): string {
    ReplaceAll(t.Text(), Placeholder, review)
  }

  /** Filling a clean template puts the whole review in place of the placeholder. */
  lemma FillInPlace(t: Template, review: string)
    requires t.Clean()
    ensures Fill(t, review) == t.head + review + t.tail
  {
    assert Placeholder[0] == '<';
    FirstCharAbsent(t.tail, Placeholder);
    ReplaceSingle(t.head, Placeholder, t.tail, review);
  }

  // The fixed wording holds no `<`; one lemma per piece keeps each proof small.
  lemma AskClean() ensures '<' !in Ask {}
  lemma RulesClean() ensures '<' !in Rules {}
  lemma RelatedClean() ensures '<' !in Related {}
  lemma FaithfulClean() ensures '<' !in Faithful {}
  lemma OffTopicClean() ensures '<' !in OffTopic {}
  lemma AboutAuthorClean() ensures '<' !in AboutAuthor {}

  lemma WordingClean()
    ensures '<' !in Ask && '<' !in Rules && '<' !in Related && '<' !in Faithful && '<' !in Unrelated
  {
    AskClean();
    RulesClean();
    RelatedClean();
    FaithfulClean();
    OffTopicClean();
    AboutAuthorClean();
  }

  lemma HeadClean(part: string, extra: string)
    requires '<' !in part && '<' !in extra
    ensures '<' !in Head(part, extra)
  {
    WordingClean();
  }

  lemma TemplatesClean()
    ensures forall k :: 0 <= k < |Templates| ==> Templates[k].Clean()
  {
    WordingClean();
    HeadClean("剧情", "");
    HeadClean("感受", "");
    HeadClean("评价", "");
    HeadClean("思考", Unrelated);
  }

  /** The four prompts, in call order. */
  function ReviewPrompts(review: string): (ps: seq<string>)
    ensures |ps| == |Templates|
  {
    seq(|Templates|, (k: int) requires 0 <= k < |Templates| => Fill(Templates[k], review))
  }

  /** Every prompt is its template with the review, whole and verbatim, in place of `<REVIEW>`. */
  lemma ReviewPromptsEmbed(review: string)
    ensures forall k :: 0 <= k < |Templates| ==>
              ReviewPrompts(review)[k] == Templates[k].head + review + Templates[k].tail
  {
    TemplatesClean();
    forall k | 0 <= k < |Templates|
      ensures ReviewPrompts(review)[k] == Templates[k].head + review + Templates[k].tail
    {
      FillInPlace(Templates[k], review);
    }
  }

  /** Different reviews give different prompts: the model always sees the review it is asked about. */
  lemma ReviewPromptsInjective(r1: string, r2: string, k: nat)
    requires k < |Templates| && ReviewPrompts(r1)[k] == ReviewPrompts(r2)[k]
    ensures r1 == r2
  {
    ReviewPromptsEmbed(r1);
    ReviewPromptsEmbed(r2);
    var h := Templates[k].head;
    assert r1 == ReviewPrompts(r1)[k][|h|..|h| + |r1|];
    assert r2 == ReviewPrompts(r2)[k][|h|..|h| + |r2|];
  }

  /** The four parts of one review. */
  datatype Parts = Parts(story: string, feeling: string, evaluation: string, thinking: string)

  /** `review_parser`: the model's answers to the four prompts, in call order. */
  function ReviewParser(review: string, llm: string -> string): (p: Parts)
    ensures p.story == llm(Templates[0].head + review + Templates[0].tail)
    ensures p.feeling == llm(Templates[1].head + review + Templates[1].tail)
    ensures p.evaluation == llm(Templates[2].head + review + Templates[2].tail)
    ensures p.thinking == llm(Templates[3].head + review + Templates[3].tail)
  {
    var ps := ReviewPrompts(review);
    ReviewPromptsEmbed(review);
    Parts(llm(ps[0]), llm(ps[1]), llm(ps[2]), llm(ps[3]))
  }

  // ---------------------------------------------------------------------------
  // Source of a file
  // ---------------------------------------------------------------------------

  /** Files that `parse_reviews` reads. */
  predicate IsCleaned(file: string) {
    EndsWith(file, "cleaned.txt")
  }

  const CleanedSuffix := "_cleaned.txt"

  /** `file.split("_cleaned.txt")[0]` */
  function ReviewId(file: string): string {
    BeforeFirst(file, CleanedSuffix)
  }

  const DoubanReview := "https://book.douban.com/review/"
  const YoutubeWatch := "https://www.youtube.com/watch?v="
  const BilibiliVideo := "https://www.bilibili.com/video/"

  /** The source and URL of a website review as written: the URL carries the whole file stem. */
  function WebsiteSourceAsWritten(file: string): (s: (string, string))
    ensures s.0 == "douban"
  {
    ("douban", DoubanReview + ReviewId(file) + "/")
  }

  /** The source and URL of a transcript as written: the id keeps its platform prefix. */
  function VideoSourceAsWritten(file: string): (s: (string, string))
    ensures StartsWith(file, "ytb_") ==> s.0 == "youtube"
    ensures !StartsWith(file, "ytb_") && StartsWith(file, "bilibili_") ==> s.0 == "bilibili"
    ensures !StartsWith(file, "ytb_") && !StartsWith(file, "bilibili_") ==> s.0 == "unknown"
  {
    var id := ReviewId(file);
    if StartsWith(file, "ytb_") then ("youtube", YoutubeWatch + id)
    else if StartsWith(file, "bilibili_") then ("bilibili", BilibiliVideo + id)
    else ("unknown", DoubanReview + id + "/")
  }

  /** `s` without the leading `p`, when it has one. */
  function DropPrefix(s: string, p: string): (r: string)
    ensures StartsWith(s, p) ==> p + r == s
    ensures !StartsWith(s, p) ==> r == s
  {
    if StartsWith(s, p) then s[|p|..] else s
  }

  /** The source and URL of a website review, with the `douban_` file prefix dropped from the id. */
  function WebsiteSource(file: string): (s: (string, string))
    ensures s.0 == "douban"
  {
    ("douban", DoubanReview + DropPrefix(ReviewId(file), "douban_") + "/")
  }

  /** The source and URL of a transcript, with the platform prefix dropped from the id. */
  function VideoSource(file: string): (s: (string, string))
    ensures s.0 == VideoSourceAsWritten(file).0
  {
    var id := ReviewId(file);
    if StartsWith(file, "ytb_") then ("youtube", YoutubeWatch + DropPrefix(id, "ytb_"))
    else if StartsWith(file, "bilibili_") then ("bilibili", BilibiliVideo + DropPrefix(id, "bilibili_"))
    else ("unknown", DoubanReview + id + "/")
  }

  lemma CleanedSuffixBorderless()
    ensures Borderless(CleanedSuffix)
  {
    var w := CleanedSuffix;
    assert '_' !in w[1..];
    assert forall i :: 0 < i < |w| ==> w[i] == w[1..][i - 1];
    LeadUniqueBorderless(w);
  }

  /** The cleaned file of `stem` gives `stem` back as its review id. */
  lemma ReviewIdOfCleaned(stem: string)
    requires !Contains(stem, CleanedSuffix)
    ensures ReviewId(stem + CleanedSuffix) == stem
  {
    CleanedSuffixBorderless();
    BeforeFirstTrailing(stem, CleanedSuffix);
  }

  /**
   * The crawler saves review `id` as `douban_{id}.txt`, so its cleaned file
   * is `douban_{id}_cleaned.txt`, and the URL as written names the review
   * `douban_{id}`, which Douban does not serve.
   */
  lemma WebsiteUrlAsWritten(id: string)
    requires !Contains("douban_" + id, CleanedSuffix)
    ensures WebsiteSourceAsWritten("douban_" + id + CleanedSuffix).1 == DoubanReview + "douban_" + id + "/"
  {
    ReviewIdOfCleaned("douban_" + id);
  }

  /** The corrected URL is the review's own page. */
  lemma WebsiteUrlOfReview(id: string)
    requires !Contains("douban_" + id, CleanedSuffix)
    ensures WebsiteSource("douban_" + id + CleanedSuffix).1 == DoubanReview + id + "/"
  {
    ReviewIdOfCleaned("douban_" + id);
    assert ("douban_" + id)[|"douban_"|..] == id;
  }

  /** A file named for a YouTube video is a YouTube row; one for bilibili, a bilibili row. */
  lemma PlatformOfFile(v: string)
    ensures StartsWith("ytb_" + v + CleanedSuffix, "ytb_")
    ensures !StartsWith("bilibili_" + v + CleanedSuffix, "ytb_")
    ensures StartsWith("bilibili_" + v + CleanedSuffix, "bilibili_")
  {
    assert ("bilibili_" + v + CleanedSuffix)[0] == 'b';
  }

  /**
   * The video crawler names a YouTube transcript `ytb_{v}`, so the URL as
   * written is `watch?v=ytb_{v}`, not the video `v`.
   */
  lemma YoutubeUrlAsWritten(v: string)
    requires !Contains("ytb_" + v, CleanedSuffix)
    ensures VideoSourceAsWritten("ytb_" + v + CleanedSuffix).1 == YoutubeWatch + "ytb_" + v
  {
    ReviewIdOfCleaned("ytb_" + v);
    PlatformOfFile(v);
  }

  /** Likewise a bilibili transcript `bilibili_{v}` gets the URL `video/bilibili_{v}`. */
  lemma BilibiliUrlAsWritten(v: string)
    requires !Contains("bilibili_" + v, CleanedSuffix)
    ensures VideoSourceAsWritten("bilibili_" + v + CleanedSuffix).1 == BilibiliVideo + "bilibili_" + v
  {
    ReviewIdOfCleaned("bilibili_" + v);
    PlatformOfFile(v);
  }

  /** The corrected URL of a YouTube transcript is the video's own page. */
  lemma YoutubeUrlOfId(v: string)
    requires !Contains("ytb_" + v, CleanedSuffix)
    ensures VideoSource("ytb_" + v + CleanedSuffix) == ("youtube", YoutubeWatch + v)
  {
    ReviewIdOfCleaned("ytb_" + v);
    PlatformOfFile(v);
    assert ("ytb_" + v)[|"ytb_"|..] == v;
  }

  /** The corrected URL of a bilibili transcript is the video's own page. */
  lemma BilibiliUrlOfId(v: string)
    requires !Contains("bilibili_" + v, CleanedSuffix)
    ensures VideoSource("bilibili_" + v + CleanedSuffix) == ("bilibili", BilibiliVideo + v)
  {
    ReviewIdOfCleaned("bilibili_" + v);
    PlatformOfFile(v);
    assert ("bilibili_" + v)[|"bilibili_"|..] == v;
  }

  // ---------------------------------------------------------------------------
  // parse_reviews
  // ---------------------------------------------------------------------------

  /** One row of the table; the fields are the columns, in column order. */
  datatype Row = Row(source: string, sourceUrl: string, story: string, feeling: string, evaluation: string, thinking: string)

  /** The cleaned files of a listing, in listing order. */
  function CleanedFiles(files: seq<string>): (cs: seq<string>)
    ensures |cs| <= |files|
    ensures forall k :: 0 <= k < |cs| ==> IsCleaned(cs[k]) && cs[k] in files
  {
    if |files| == 0 then []
    else (if IsCleaned(files[0]) then [files[0]] else []) + CleanedFiles(files[1..])
  }

  /** Every cleaned file of the listing is selected. */
  lemma {:induction false} CleanedFilesComplete(files: seq<string>, k: nat)
    requires k < |files| && IsCleaned(files[k])
    ensures files[k] in CleanedFiles(files)
  {
    if k > 0 {
      assert files[1..][k - 1] == files[k];
      CleanedFilesComplete(files[1..], k - 1);
    }
  }

  /** The row for `file` in `folder`, its source and URL given by `source`. */
  function ParseFile(folder: string, file: string, source: string -> (string, string),
                     read: string -> string, llm: string -> string): (r: Row)
  {
    var parts := ReviewParser(read(PathJoin(folder, file)), llm);
    Row(source(file).0, source(file).1, parts.story, parts.feeling, parts.evaluation, parts.thinking)
  }

  /** One row per file, in order. */
  function ParseFiles(folder: string, files: seq<string>, source: string -> (string, string),
                      read: string -> string, llm: string -> string): (rows: seq<Row>)
    ensures |rows| == |files|
    ensures forall k :: 0 <= k < |files| ==> rows[k] == ParseFile(folder, files[k], source, read, llm)
  {
    if |files| == 0 then []
    else [ParseFile(folder, files[0], source, read, llm)] + ParseFiles(folder, files[1..], source, read, llm)
  }

  /**
   * The table `parse_reviews` builds, for given source maps: the rows of
   * the cleaned files of `{book}/website`, then those of `{book}/video`.
   * `website` and `video` are the two listings, `read` gives a file's text.
   */
  function ParseReviewsWith(book: string, website: seq<string>, video: seq<string>,
                            webSource: string -> (string, string), videoSource: string -> (string, string),
                            read: string -> string, llm: string -> string): (rows: seq<Row>)
    ensures |rows| == |CleanedFiles(website)| + |CleanedFiles(video)|
  {
    ParseFiles(PathJoin(book, "website"), CleanedFiles(website), webSource, read, llm)
    + ParseFiles(PathJoin(book, "video"), CleanedFiles(video), videoSource, read, llm)
  }

  /** `parse_reviews` as written: the URLs carry the whole file stem. */
  function ParseReviews(book: string, website: seq<string>, video: seq<string>,
                        read: string -> string, llm: string -> string): (rows: seq<Row>)
    ensures |rows| == |CleanedFiles(website)| + |CleanedFiles(video)|
  {
    ParseReviewsWith(book, website, video, WebsiteSourceAsWritten, VideoSourceAsWritten, read, llm)
  }

  /** `parse_reviews` with the platform prefixes dropped from the URLs. */
  function ParseReviewsCorrected(book: string, website: seq<string>, video: seq<string>,
                                 read: string -> string, llm: string -> string): (rows: seq<Row>)
    ensures |rows| == |CleanedFiles(website)| + |CleanedFiles(video)|
  {
    ParseReviewsWith(book, website, video, WebsiteSource, VideoSource, read, llm)
  }

  /** Row `k` of the table is the row of the `k`-th cleaned file, website files first. */
  lemma RowOf(book: string, website: seq<string>, video: seq<string>,
              webSource: string -> (string, string), videoSource: string -> (string, string),
              read: string -> string, llm: string -> string, k: nat)
    requires k < |CleanedFiles(website)| + |CleanedFiles(video)|
    ensures var rows := ParseReviewsWith(book, website, video, webSource, videoSource, read, llm);
      var n := |CleanedFiles(website)|;
      (k < n ==> rows[k] == ParseFile(PathJoin(book, "website"), CleanedFiles(website)[k], webSource, read, llm))
      && (n <= k ==> rows[k] == ParseFile(PathJoin(book, "video"), CleanedFiles(video)[k - n], videoSource, read, llm))
  {
    var w := ParseFiles(PathJoin(book, "website"), CleanedFiles(website), webSource, read, llm);
    var v := ParseFiles(PathJoin(book, "video"), CleanedFiles(video), videoSource, read, llm);
    if k >= |w| {
      IndexPastPrefix(w, v, k);
    }
  }

  /**
   * As written, the table starts with one `douban` row per cleaned website
   * review, in listing order, whose URL names the whole file stem.
   */
  lemma WebsiteRowsFirst(book: string, website: seq<string>, video: seq<string>,
                         read: string -> string, llm: string -> string, k: nat)
    requires k < |CleanedFiles(website)|
    ensures ParseReviews(book, website, video, read, llm)[k]
            == ParseFile(PathJoin(book, "website"), CleanedFiles(website)[k], WebsiteSourceAsWritten, read, llm)
    ensures ParseReviews(book, website, video, read, llm)[k].source == "douban"
    ensures ParseReviews(book, website, video, read, llm)[k].sourceUrl
            == DoubanReview + ReviewId(CleanedFiles(website)[k]) + "/"
  {
    RowOf(book, website, video, WebsiteSourceAsWritten, VideoSourceAsWritten, read, llm, k);
  }

  /**
   * As written, after the website rows come the transcript rows, each a
   * `youtube`, `bilibili` or `unknown` row whose URL ends in the whole
   * file stem, platform prefix included.
   */
  lemma VideoRowsAfter(book: string, website: seq<string>, video: seq<string>,
                       read: string -> string, llm: string -> string, k: nat)
    requires |CleanedFiles(website)| <= k < |CleanedFiles(website)| + |CleanedFiles(video)|
    ensures var f := CleanedFiles(video)[k - |CleanedFiles(website)|];
      var row := ParseReviews(book, website, video, read, llm)[k];
      row == ParseFile(PathJoin(book, "video"), f, VideoSourceAsWritten, read, llm)
      && row.source in {"youtube", "bilibili", "unknown"}
      && (StartsWith(f, "ytb_") ==> row.sourceUrl == YoutubeWatch + ReviewId(f))
      && (!StartsWith(f, "ytb_") && StartsWith(f, "bilibili_") ==> row.sourceUrl == BilibiliVideo + ReviewId(f))
      && (!StartsWith(f, "ytb_") && !StartsWith(f, "bilibili_") ==> row.sourceUrl == DoubanReview + ReviewId(f) + "/")
  {
    RowOf(book, website, video, WebsiteSourceAsWritten, VideoSourceAsWritten, read, llm, k);
    var f := CleanedFiles(video)[k - |CleanedFiles(website)|];
    ParseFileSource(PathJoin(book, "video"), f, VideoSourceAsWritten, read, llm);
    VideoSourceKinds(f);
  }

  /**
   * The corrected table differs from the one as written only in the URL
   * column: same length, and row by row the same source and the same four
   * answers.
   */
  lemma CorrectedRowsDifferOnlyInUrl(book: string, website: seq<string>, video: seq<string>,
                                     read: string -> string, llm: string -> string, k: nat)
    requires k < |CleanedFiles(website)| + |CleanedFiles(video)|
    ensures |ParseReviewsCorrected(book, website, video, read, llm)| == |ParseReviews(book, website, video, read, llm)|
    ensures var a := ParseReviews(book, website, video, read, llm)[k];
      var c := ParseReviewsCorrected(book, website, video, read, llm)[k];
      c == a.(sourceUrl := c.sourceUrl)
  {
    RowOf(book, website, video, WebsiteSourceAsWritten, VideoSourceAsWritten, read, llm, k);
    RowOf(book, website, video, WebsiteSource, VideoSource, read, llm, k);
  }

  /** In the corrected table a website row's URL is the review page of the id without `douban_`. */
  lemma CorrectedWebsiteRows(book: string, website: seq<string>, video: seq<string>,
                             read: string -> string, llm: string -> string, k: nat)
    requires k < |CleanedFiles(website)|
    ensures ParseReviewsCorrected(book, website, video, read, llm)[k].sourceUrl
            == DoubanReview + DropPrefix(ReviewId(CleanedFiles(website)[k]), "douban_") + "/"
  {
    RowOf(book, website, video, WebsiteSource, VideoSource, read, llm, k);
  }

  /** A row's source is what the source function says of its file. */
  lemma ParseFileSource(folder: string, file: string, source: string -> (string, string),
                        read: string -> string, llm: string -> string)
    ensures ParseFile(folder, file, source, read, llm).source == source(file).0
  {
  }

  /** A transcript's source is one of the three platform names, as written and corrected. */
  lemma VideoSourceKinds(file: string)
    ensures VideoSourceAsWritten(file).0 in {"youtube", "bilibili", "unknown"}
    ensures VideoSource(file).0 == VideoSourceAsWritten(file).0
  {
  }
}
