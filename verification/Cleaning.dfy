/**
 * The cleaners that run between crawling and parsing: the rule-based
 * Douban review cleaner (marker gate, spoiler cut, tagline slice, output
 * naming, file selection) and the two model-based transcript cleaners
 * (file selection, prompt, output naming). The language model is a
 * parameter `llm` from prompt to response.
 */
module Cleaning {
  import opened Outcomes
  import opened Strings
  import opened Paths

  // ---------------------------------------------------------------------------
  // clean_douban
  // ---------------------------------------------------------------------------

  /** Present only on pages fetched from the Douban website through the reader proxy. */
  const ClientMarker := "下载豆瓣客户端"
  /** Douban's spoiler notice; it and everything after it is dropped. */
  const SpoilerMarker := "有关键情节透露"
  /** The navigation banner link after which the review text starts. */
  const Tagline := "[](https://book.douban.com/annual/2024/?fullscreen=1&&dt_from=book_navigation)"

  /**
   * The cleaning rule with its three markers as parameters: a page without
   * `client` is kept whole; otherwise it is cut before the first `spoiler`,
   * and if `tagline` then occurs, only the piece after its first occurrence
   * (up to the next one) is kept.
   */
  function CleanWith(text: string, client: string, spoiler: string, tagline: string): (r: string)
    requires |spoiler| > 0 && |tagline| > 0
    ensures !Contains(text, client) ==> r == text
  {
    if !Contains(text, client) then text
    else
      var cut := if Contains(text, spoiler) then Split(text, spoiler)[0] else text;
      if Contains(cut, tagline) then SplitSecond(cut, tagline); Split(cut, tagline)[1]
      else cut
  }

  /** The text `clean_douban` writes for a review page `text`. */
  function CleanDouban(text: string): (r: string)
    ensures !Contains(text, ClientMarker) ==> r == text
  {
    CleanWith(text, ClientMarker, SpoilerMarker, Tagline)
  }

  /** The same rule stated with `find` instead of `split`. */
  lemma CleanByFind(text: string, client: string, spoiler: string, tagline: string)
    requires |spoiler| > 0 && |tagline| > 0 && Contains(text, client)
    ensures !Contains(BeforeFirst(text, spoiler), tagline)
            ==> CleanWith(text, client, spoiler, tagline) == BeforeFirst(text, spoiler)
    ensures Contains(BeforeFirst(text, spoiler), tagline)
            ==> CleanWith(text, client, spoiler, tagline)
                == BeforeFirst(AfterFirst(BeforeFirst(text, spoiler), tagline), tagline)
  {
    SplitHead(text, spoiler);
    var cut := BeforeFirst(text, spoiler);
    if Contains(cut, tagline) {
      SplitSecond(cut, tagline);
    }
  }

  /** A slice of a string without `sub` has no `sub` either. */
  lemma SliceKeepsOut(s: string, sub: string, lo: nat, hi: nat)
    requires lo <= hi <= |s| && !Contains(s, sub)
    ensures !Contains(s[lo..hi], sub)
  {
    if Contains(s[lo..hi], sub) {
      ContainsSlice(s, sub, lo, hi);
    }
  }

  /** The piece between the first and second tagline is a slice without the tagline. */
  lemma TaglinePiece(cut: string, tagline: string) returns (lo: nat, hi: nat)
    requires |tagline| > 0 && Contains(cut, tagline)
    ensures lo <= hi <= |cut| && BeforeFirst(AfterFirst(cut, tagline), tagline) == cut[lo..hi]
    ensures !Contains(cut[lo..hi], tagline)
  {
    var j := IndexOf(cut, tagline).value;
    var after := AfterFirst(cut, tagline);
    assert after == cut[j + |tagline|..];
    var piece := BeforeFirst(after, tagline);
    BeforeFirstClean(after, tagline);
    lo, hi := j + |tagline|, j + |tagline| + |piece|;
    assert piece == cut[lo..hi];
  }

  /**
   * Cleaning only cuts: the output is the piece `text[lo..hi]` of the
   * input, and once the gate passes it holds no spoiler marker, nor a
   * tagline when one preceded the spoiler.
   */
  lemma CleanIsSlice(text: string, client: string, spoiler: string, tagline: string) returns (lo: nat, hi: nat)
    requires |spoiler| > 0 && |tagline| > 0
    ensures lo <= hi <= |text| && CleanWith(text, client, spoiler, tagline) == text[lo..hi]
    ensures Contains(text, client) ==> !Contains(CleanWith(text, client, spoiler, tagline), spoiler)
    ensures Contains(text, client) && Contains(BeforeFirst(text, spoiler), tagline)
            ==> !Contains(CleanWith(text, client, spoiler, tagline), tagline)
  {
    if !Contains(text, client) {
      lo, hi := 0, |text|;
      assert text[lo..hi] == text;
    } else {
      CleanByFind(text, client, spoiler, tagline);
      var cut := BeforeFirst(text, spoiler);
      BeforeFirstClean(text, spoiler);
      assert cut == text[..|cut|];
      if !Contains(cut, tagline) {
        lo, hi := 0, |cut|;
      } else {
        lo, hi := TaglinePiece(cut, tagline);
        SliceKeepsOut(cut, spoiler, lo, hi);
        PrefixSlice(text, cut, lo, hi);
      }
    }
  }

  /** Douban pages: the output is a piece of the page without the spoiler notice. */
  lemma CleanDoubanCuts(text: string) returns (lo: nat, hi: nat)
    ensures lo <= hi <= |text| && CleanDouban(text) == text[lo..hi]
    ensures Contains(text, ClientMarker) ==> !Contains(CleanDouban(text), SpoilerMarker)
  {
    lo, hi := CleanIsSlice(text, ClientMarker, SpoilerMarker, Tagline);
  }

  /** Spoiler truncation comes first: a tagline only after the spoiler changes nothing. */
  lemma TaglineAfterSpoilerIgnored(text: string, client: string, spoiler: string, tagline: string)
    requires |spoiler| > 0 && |tagline| > 0
    requires Contains(text, client) && Contains(text, spoiler)
    requires !Contains(BeforeFirst(text, spoiler), tagline)
    ensures CleanWith(text, client, spoiler, tagline) == BeforeFirst(text, spoiler)
    ensures |CleanWith(text, client, spoiler, tagline)| < |text|
  {
    CleanByFind(text, client, spoiler, tagline);
    var i := IndexOf(text, spoiler).value;
    assert BeforeFirst(text, spoiler) == text[..i];
  }

  // ---------------------------------------------------------------------------
  // Output naming and selection
  // ---------------------------------------------------------------------------

  const CleanedSuffix := "_cleaned.txt"

  /**
   * The output name as `clean_douban` computes it: everything before the
   * first `.` of the whole path, then `_cleaned.txt`.
   */
  function CleanedNameAsWritten(path: string): string {
    Split(path, ".")[0] + CleanedSuffix
  }

  /** The output name with the extension of the file itself replaced. */
  function CleanedName(path: string): string {
    Splitext(path).0 + CleanedSuffix
  }

  /** The code as written cuts the whole path at its first dot. */
  lemma AsWrittenCutsAtFirstDot(a: string, rest: string)
    requires '.' !in a
    ensures CleanedNameAsWritten(a + "." + rest) == a + CleanedSuffix
  {
    assert "." == ['.'];
    SplitCutChar(a, '.', rest);
  }

  /** With no dot in the directory, the code as written names the output next to its input. */
  lemma AsWrittenWithoutDottedDirectory(dir: string, stem: string)
    requires '.' !in dir && '.' !in stem
    ensures CleanedNameAsWritten(dir + "/" + stem + ".txt") == dir + "/" + stem + CleanedSuffix
  {
    assert dir + "/" + stem + ".txt" == (dir + "/" + stem) + "." + "txt";
    assert '.' !in dir + "/" + stem;
    AsWrittenCutsAtFirstDot(dir + "/" + stem, "txt");
  }

  /**
   * A dot in a directory name cuts the path there: every review under
   * `top.sub/` is written to `top_cleaned.txt`, outside its directory, so
   * the reviews overwrite one another. For instance both
   * `notes.v2/website/douban_7.txt` and `notes.v2/website/douban_8.txt`
   * are written to `notes_cleaned.txt`.
   */
  lemma AsWrittenDottedDirectoryCollides(top: string, sub: string, stem1: string, stem2: string)
    requires '.' !in top
    ensures CleanedNameAsWritten(top + "." + sub + "/" + stem1 + ".txt") == top + CleanedSuffix
    ensures CleanedNameAsWritten(top + "." + sub + "/" + stem2 + ".txt") == top + CleanedSuffix
  {
    assert top + "." + sub + "/" + stem1 + ".txt" == top + "." + (sub + "/" + stem1 + ".txt");
    assert top + "." + sub + "/" + stem2 + ".txt" == top + "." + (sub + "/" + stem2 + ".txt");
    AsWrittenCutsAtFirstDot(top, sub + "/" + stem1 + ".txt");
    AsWrittenCutsAtFirstDot(top, sub + "/" + stem2 + ".txt");
  }

  /** The concrete instance: two reviews in `notes.v2/website` share one output. */
  lemma DottedDirectoryExample()
    ensures CleanedNameAsWritten("notes" + ".v2/website/" + "douban_7" + ".txt")
            == CleanedNameAsWritten("notes" + ".v2/website/" + "douban_8" + ".txt")
  {
    assert "notes" + ".v2/website/" + "douban_7" + ".txt" == "notes" + "." + "v2/website" + "/" + "douban_7" + ".txt";
    assert "notes" + ".v2/website/" + "douban_8" + ".txt" == "notes" + "." + "v2/website" + "/" + "douban_8" + ".txt";
    AsWrittenDottedDirectoryCollides("notes", "v2/website", "douban_7", "douban_8");
  }

  /** The corrected name stays in the input's directory, whatever dots the directory holds. */
  lemma CleanedNameNextToInput(dir: string, stem: string)
    requires |stem| > 0 && '.' !in stem && '/' !in stem
    ensures CleanedName(dir + "/" + stem + ".txt") == dir + "/" + stem + CleanedSuffix
  {
    assert dir + "/" + stem + ".txt" == dir + "/" + stem + "." + "txt";
    SplitextOf(dir, stem, "txt");
  }

  /** Different reviews in one directory get different output names. */
  lemma CleanedNamesDistinct(dir: string, stem1: string, stem2: string)
    requires |stem1| > 0 && '.' !in stem1 && '/' !in stem1
    requires |stem2| > 0 && '.' !in stem2 && '/' !in stem2
    requires CleanedName(dir + "/" + stem1 + ".txt") == CleanedName(dir + "/" + stem2 + ".txt")
    ensures stem1 == stem2
  {
    CleanedNameNextToInput(dir, stem1);
    CleanedNameNextToInput(dir, stem2);
    var n1, n2 := dir + "/" + stem1 + CleanedSuffix, dir + "/" + stem2 + CleanedSuffix;
    assert stem1 == n1[|dir| + 1..|dir| + 1 + |stem1|];
    assert stem2 == n2[|dir| + 1..|dir| + 1 + |stem2|];
  }

  /**
   * The outputs of both namings hold `cleaned`, so the next run skips
   * them when they land in the listed directory.
   */
  lemma CleanedNamesSkipped(path: string)
    ensures Contains(CleanedNameAsWritten(path), "cleaned")
    ensures Contains(CleanedName(path), "cleaned")
  {
    SuffixedNameSkipped(Split(path, ".")[0]);
    SuffixedNameSkipped(Splitext(path).0);
  }

  /** A name ending in `_cleaned.txt` contains `cleaned`. */
  lemma SuffixedNameSkipped(stem: string)
    ensures Contains(stem + CleanedSuffix, "cleaned")
  {
    var r := stem + CleanedSuffix;
    assert r[|stem| + 1..|stem| + 8] == "cleaned";
    assert OccursAt(r, "cleaned", |stem| + 1);
  }

  /** One file a cleaner writes: its path and its text. */
  datatype Write = Write(path: string, text: string)

  /**
   * The loop of `clean_all_douban_files` over the directory's (name,
   * content) pairs in listing order, for a given output naming: every name
   * without `cleaned` is cleaned into the file `rename` gives its path.
   */
  function CleanAllDoubanFilesWith(dir: string, files: seq<(string, string)>, rename: string -> string): (writes: seq<Write>)
    ensures |writes| <= |files|
  {
    if |files| == 0 then []
    else
      var (name, content) := files[0];
      var head := if Contains(name, "cleaned") then []
                  else [Write(rename(PathJoin(dir, name)), CleanDouban(content))];
      head + CleanAllDoubanFilesWith(dir, files[1..], rename)
  }

  /** `clean_all_douban_files` as written: outputs named by `split(".")[0]`. */
  function CleanAllDoubanFiles(dir: string, files: seq<(string, string)>): (writes: seq<Write>)
    ensures |writes| <= |files|
  {
    CleanAllDoubanFilesWith(dir, files, CleanedNameAsWritten)
  }

  /** `clean_all_douban_files` with the corrected output naming, next to each input. */
  function CleanAllDoubanFilesCorrected(dir: string, files: seq<(string, string)>): (writes: seq<Write>)
    ensures |writes| <= |files|
  {
    CleanAllDoubanFilesWith(dir, files, CleanedName)
  }

  /** Under any naming, a listed file is cleaned when its name lacks `cleaned`. */
  lemma {:induction false} DoubanFileCleanedWith(dir: string, files: seq<(string, string)>, rename: string -> string, k: nat)
    requires k < |files| && !Contains(files[k].0, "cleaned")
    ensures Write(rename(PathJoin(dir, files[k].0)), CleanDouban(files[k].1)) in CleanAllDoubanFilesWith(dir, files, rename)
  {
    if k > 0 {
      assert files[1..][k - 1] == files[k];
      DoubanFileCleanedWith(dir, files[1..], rename, k - 1);
    }
  }

  /** Under any naming, every write comes from a listed file whose name lacks `cleaned`. */
  lemma {:induction false} DoubanWritesFromFilesWith(dir: string, files: seq<(string, string)>, rename: string -> string, w: Write)
    requires w in CleanAllDoubanFilesWith(dir, files, rename)
    ensures exists k :: 0 <= k < |files| && !Contains(files[k].0, "cleaned")
                        && w == Write(rename(PathJoin(dir, files[k].0)), CleanDouban(files[k].1))
  {
    var (name, content) := files[0];
    if Contains(name, "cleaned") || w != Write(rename(PathJoin(dir, name)), CleanDouban(content)) {
      DoubanWritesFromFilesWith(dir, files[1..], rename, w);
      var k :| 0 <= k < |files[1..]| && !Contains(files[1..][k].0, "cleaned")
               && w == Write(rename(PathJoin(dir, files[1..][k].0)), CleanDouban(files[1..][k].1));
      assert files[1..][k] == files[k + 1];
    }
  }

  /**
   * As written, a listed file is cleaned exactly when its name lacks
   * `cleaned`, into the file its path's first-dot cut names.
   */
  lemma DoubanFileCleaned(dir: string, files: seq<(string, string)>, k: nat)
    requires k < |files| && !Contains(files[k].0, "cleaned")
    ensures Write(CleanedNameAsWritten(PathJoin(dir, files[k].0)), CleanDouban(files[k].1)) in CleanAllDoubanFiles(dir, files)
  {
    DoubanFileCleanedWith(dir, files, CleanedNameAsWritten, k);
  }

  /** As written, every write comes from a listed file whose name lacks `cleaned`. */
  lemma DoubanWritesFromFiles(dir: string, files: seq<(string, string)>, w: Write)
    requires w in CleanAllDoubanFiles(dir, files)
    ensures exists k :: 0 <= k < |files| && !Contains(files[k].0, "cleaned")
                        && w == Write(CleanedNameAsWritten(PathJoin(dir, files[k].0)), CleanDouban(files[k].1))
  {
    DoubanWritesFromFilesWith(dir, files, CleanedNameAsWritten, w);
  }

  /**
   * As written, two reviews listed in a directory `top.sub` are both
   * written to `top_cleaned.txt`: the collision of the first-dot cut.
   */
  lemma DoubanFilesCollideAsWritten(top: string, sub: string, files: seq<(string, string)>, j: nat, k: nat)
    requires '.' !in top
    requires j < |files| && k < |files| && !Contains(files[j].0, "cleaned") && !Contains(files[k].0, "cleaned")
    requires |sub| > 0 && sub[|sub| - 1] != '/'
    requires |files[j].0| > 0 && files[j].0[0] != '/' && |files[k].0| > 0 && files[k].0[0] != '/'
    ensures Write(top + CleanedSuffix, CleanDouban(files[j].1)) in CleanAllDoubanFiles(top + "." + sub, files)
    ensures Write(top + CleanedSuffix, CleanDouban(files[k].1)) in CleanAllDoubanFiles(top + "." + sub, files)
  {
    var d := top + "." + sub;
    assert d[|d| - 1] == sub[|sub| - 1];
    assert PathJoin(d, files[j].0) == top + "." + (sub + "/" + files[j].0);
    assert PathJoin(d, files[k].0) == top + "." + (sub + "/" + files[k].0);
    AsWrittenCutsAtFirstDot(top, sub + "/" + files[j].0);
    AsWrittenCutsAtFirstDot(top, sub + "/" + files[k].0);
    DoubanFileCleaned(top + "." + sub, files, j);
    DoubanFileCleaned(top + "." + sub, files, k);
  }

  /** With the corrected naming, a listed file is cleaned into the file next to it. */
  lemma CorrectedFileCleaned(dir: string, files: seq<(string, string)>, k: nat)
    requires k < |files| && !Contains(files[k].0, "cleaned")
    ensures Write(CleanedName(PathJoin(dir, files[k].0)), CleanDouban(files[k].1)) in CleanAllDoubanFilesCorrected(dir, files)
  {
    DoubanFileCleanedWith(dir, files, CleanedName, k);
  }

  // ---------------------------------------------------------------------------
  // Transcript cleaning
  // ---------------------------------------------------------------------------

  /** A transcript still to clean: ends with `.txt` but not with `_cleaned.txt`. */
  predicate IsTranscript(name: string) {
    EndsWith(name, ".txt") && !EndsWith(name, CleanedSuffix)
  }

  /** `s.replace(".txt", "_cleaned.txt")`: every `.txt` in the path is replaced. */
  function CleanedTranscriptName(path: string): string {
    ReplaceAll(path, ".txt", CleanedSuffix)
  }

  /** The model prompt of `reader/video_cleaning.py`, up to the transcript. */
  const ReaderPromptHead := "Act as a spelling corrector and improver. (replyWithRewrittenText)\n\nStrictly follow these rules:\n- Correct spelling, grammar and punctuation\n- (maintainOriginalLanguage)\n- NEVER surround the rewritten text with quotes\n- (maintainURLs)\n- Don't change emojis\n- Split the text into paragraphs\n\nText: "
  /** The model prompt of `video_cleaning.py`, up to the transcript. */
  const RootPromptHead := "Act as a spelling corrector and improver. (replyWithRewrittenText)\n\nStrictly follow these rules:\n- Correct spelling, grammar and punctuation\n- (maintainOriginalLanguage)\n- NEVER surround the rewritten text with quotes\n- (maintainURLs)\n- Don't change emojis\n\nText: "
  /** What both prompts put after the transcript. */
  const PromptTail := "\n\nFixed Text:\n    "

  function CleaningPrompt(head: string, text: string): string {
    head + text + PromptTail
  }

  /** The prompt carries the whole transcript: different transcripts give different prompts. */
  lemma PromptEmbedsText(head: string, t1: string, t2: string)
    requires CleaningPrompt(head, t1) == CleaningPrompt(head, t2)
    ensures t1 == t2
  {
    assert t1 == CleaningPrompt(head, t1)[|head|..|head| + |t1|];
    assert t2 == CleaningPrompt(head, t2)[|head|..|head| + |t2|];
  }

  /** `clean_video`: the model's response is written, verbatim, to the cleaned name. */
  function CleanVideo(path: string, text: string, head: string, llm: string -> string): (w: Write)
    ensures w.text == llm(CleaningPrompt(head, text))
  {
    Write(CleanedTranscriptName(path), llm(CleaningPrompt(head, text)))
  }

  /** The cleaned name of a transcript is not itself a transcript, so reruns skip it. */
  lemma CleanedTranscriptSkipped(path: string)
    requires EndsWith(path, ".txt")
    ensures !IsTranscript(CleanedTranscriptName(path))
    ensures EndsWith(CleanedTranscriptName(path), CleanedSuffix)
  {
    var p := path[..|path| - 4];
    assert path == p + ".txt";
    assert Borderless(".txt") by {
      LeadUniqueBorderless(".txt");
    }
    ReplaceTrailing(p, ".txt", CleanedSuffix);
    var r := CleanedTranscriptName(path);
    assert r[|r| - |CleanedSuffix|..] == CleanedSuffix;
  }

  /** The transcripts among the listed files, in listing order. */
  function Transcripts(files: seq<(string, string)>): (ts: seq<(string, string)>)
    ensures |ts| <= |files|
    ensures forall k :: 0 <= k < |ts| ==> IsTranscript(ts[k].0) && ts[k] in files
  {
    if |files| == 0 then []
    else (if IsTranscript(files[0].0) then [files[0]] else []) + Transcripts(files[1..])
  }

  /** Every listed transcript is selected. */
  lemma {:induction false} TranscriptsComplete(files: seq<(string, string)>, k: nat)
    requires k < |files| && IsTranscript(files[k].0)
    ensures files[k] in Transcripts(files)
  {
    if k > 0 {
      assert files[1..][k - 1] == files[k];
      TranscriptsComplete(files[1..], k - 1);
    }
  }

  /** `clean_video` for each selected transcript, at `{path}/{name}`, in order. */
  function CleanEach(path: string, ts: seq<(string, string)>, head: string, llm: string -> string): (ws: seq<Write>)
    ensures |ws| == |ts|
    ensures forall k :: 0 <= k < |ts| ==> ws[k] == CleanVideo(path + "/" + ts[k].0, ts[k].1, head, llm)
  {
    if |ts| == 0 then []
    else [CleanVideo(path + "/" + ts[0].0, ts[0].1, head, llm)] + CleanEach(path, ts[1..], head, llm)
  }

  /** How `clean_all_video_files` ends. */
  datatype VideoCleaning = MissingDirectory | NothingToClean | CleanedAll(writes: seq<Write>)

  /**
   * `clean_all_video_files` (`reader/video_cleaning.py`): `listing` is the
   * directory's (name, content) pairs, or `None` when it does not exist.
   */
  function CleanAllVideoFiles(path: string, listing: Option<seq<(string, string)>>, llm: string -> string): (c: VideoCleaning)
    ensures listing.None? <==> c == MissingDirectory
    ensures listing.Some? && |Transcripts(listing.value)| == 0 <==> c == NothingToClean
    ensures c.CleanedAll? ==> |c.writes| == |Transcripts(listing.value)| > 0
  {
    match listing
    case None => MissingDirectory
    case Some(files) =>
      var ts := Transcripts(files);
      if |ts| == 0 then NothingToClean else CleanedAll(CleanEach(path, ts, ReaderPromptHead, llm))
  }

  /**
   * `clean_all_videos` (`video_cleaning.py`): no directory check, so a
   * missing directory is the error `os.listdir` raises.
   */
  function CleanAllVideos(path: string, listing: Option<seq<(string, string)>>, llm: string -> string): (r: Result<seq<Write>>)
    ensures listing.None? <==> r == Err(FileNotFound)
    ensures r.Ok? ==> |r.value| == |Transcripts(listing.value)|
  {
    match listing
    case None => Err(FileNotFound)
    case Some(files) => Ok(CleanEach(path, Transcripts(files), RootPromptHead, llm))
  }
}
