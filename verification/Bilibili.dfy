/**
 * The deterministic part of the Bilibili search crawler: parsing `M:S` and
 * `H:M:S` durations, stripping markup from titles, turning search hits into
 * video records, first-occurrence de-duplication by `bvid`, the stable
 * top-ten cut by play count, and the bookkeeping of `download_videos`.
 * The search API, the play-count parser and the downloader are parameters.
 */
module Bilibili {
  import opened Outcomes
  import opened Strings
  import opened Sorting
  import Markup

  // ---------------------------------------------------------------------------
  // Durations
  // ---------------------------------------------------------------------------

  /**
   * `_parse_duration` over an integer parser `toInt` (`None` where Python's
   * `int` raises): `M:S` and `H:M:S` give seconds; an empty text, any other
   * number of parts, or a part `toInt` rejects gives 0.
   */
  function DurationWith(text: string, toInt: string -> Option<int>): (seconds: int)
    ensures text == "" ==> seconds == 0
    ensures |Split(text, ":")| != 2 && |Split(text, ":")| != 3 ==> seconds == 0
  {
    if text == "" then 0
    else
      var parts := Split(text, ":");
      if |parts| == 2 then
        match (toInt(parts[0]), toInt(parts[1]))
        case (Some(m), Some(sec)) => m * 60 + sec
        case _ => 0
      else if |parts| == 3 then
        match (toInt(parts[0]), toInt(parts[1]), toInt(parts[2]))
        case (Some(h), Some(m), Some(sec)) => h * 3600 + m * 60 + sec
        case _ => 0
      else 0
  }

  /** `_parse_duration` with Python's `int`. */
  function ParseDuration(text: string): int {
    DurationWith(text, ParseInt)
  }

  /** A part the integer parser rejects makes the whole duration 0. */
  lemma DurationBadPart(text: string, toInt: string -> Option<int>, k: nat)
    requires k < |Split(text, ":")| && toInt(Split(text, ":")[k]).None?
    ensures DurationWith(text, toInt) == 0
  {
    var parts := Split(text, ":");
    if text != "" && |parts| == 2 {
      assert toInt(parts[0]).None? || toInt(parts[1]).None?;
    } else if text != "" && |parts| == 3 {
      assert toInt(parts[0]).None? || toInt(parts[1]).None? || toInt(parts[2]).None?;
    }
  }

  /** Two well-formed parts give minutes and seconds. */
  lemma DurationTwo(text: string, toInt: string -> Option<int>, m: int, sec: int)
    requires text != "" && |Split(text, ":")| == 2
    requires toInt(Split(text, ":")[0]) == Some(m) && toInt(Split(text, ":")[1]) == Some(sec)
    ensures DurationWith(text, toInt) == m * 60 + sec
  {
  }

  /** Three well-formed parts give hours, minutes and seconds. */
  lemma DurationThree(text: string, toInt: string -> Option<int>, h: int, m: int, sec: int)
    requires text != "" && |Split(text, ":")| == 3
    requires toInt(Split(text, ":")[0]) == Some(h) && toInt(Split(text, ":")[1]) == Some(m)
    requires toInt(Split(text, ":")[2]) == Some(sec)
    ensures DurationWith(text, toInt) == h * 3600 + m * 60 + sec
  {
  }

  lemma DigitsHaveNoColon(n: nat)
    ensures ':' !in NatToString(n)
  {
    var s := NatToString(n);
    forall i | 0 <= i < |s| ensures s[i] != ':' {
      assert IsDigit(s[i]);
    }
  }

  /** Two colon-free parts joined by `:` split back into those parts. */
  lemma SplitTwo(a: string, b: string)
    requires ':' !in a && ':' !in b
    ensures Split(a + ":" + b, ":") == [a, b]
  {
    assert ":" == [':'];
    SplitCutChar(a, ':', b);
    SplitCharAbsent(b, ':');
  }

  /** Three colon-free parts joined by `:` split back into those parts. */
  lemma SplitThree(a: string, b: string, c: string)
    requires ':' !in a && ':' !in b && ':' !in c
    ensures Split(a + ":" + b + ":" + c, ":") == [a, b, c]
  {
    assert ":" == [':'];
    assert a + ":" + b + ":" + c == a + [':'] + (b + ":" + c);
    SplitCutChar(a, ':', b + ":" + c);
    SplitTwo(b, c);
  }

  /** Printing minutes and seconds as `M:S` and parsing gives the total seconds back. */
  lemma MinutesSecondsRoundTrip(m: nat, sec: nat)
    ensures ParseDuration(NatToString(m) + ":" + NatToString(sec)) == m * 60 + sec
  {
    DigitsHaveNoColon(m);
    DigitsHaveNoColon(sec);
    SplitTwo(NatToString(m), NatToString(sec));
    ParseNatToString(m);
    ParseNatToString(sec);
    DurationTwo(NatToString(m) + ":" + NatToString(sec), ParseInt, m, sec);
  }

  /** Printing `H:M:S` and parsing gives the total seconds back. */
  lemma HoursMinutesSecondsRoundTrip(h: nat, m: nat, sec: nat)
    ensures ParseDuration(NatToString(h) + ":" + NatToString(m) + ":" + NatToString(sec))
         == h * 3600 + m * 60 + sec
  {
    DigitsHaveNoColon(h);
    DigitsHaveNoColon(m);
    DigitsHaveNoColon(sec);
    SplitThree(NatToString(h), NatToString(m), NatToString(sec));
    ParseNatToString(h);
    ParseNatToString(m);
    ParseNatToString(sec);
    DurationThree(NatToString(h) + ":" + NatToString(m) + ":" + NatToString(sec), ParseInt, h, m, sec);
  }

  // ---------------------------------------------------------------------------
  // Video records
  // ---------------------------------------------------------------------------

  /** One hit of the search API; a key the hit lacks holds the default the crawler reads for it. */
  datatype SearchHit = SearchHit(
    bvid: string, title: string, author: string, duration: string,
    play: string, description: string, pic: string, pubdate: int)

  /** The record `_parse_video_info` builds. */
  datatype Video = Video(
    bvid: string, title: string, author: string, duration: int, playCount: int,
    description: string, url: string, pic: string, pubdate: int)

  const VideoPagePrefix := "https://www.bilibili.com/video/"
  const DefaultMinDuration := 300
  const TopCount := 10

  /** `_clean_title`: the title without markup tags. */
  function CleanTitle(title: string): (r: string)
    ensures Markup.TagFree(r)
    ensures Markup.TagFree(title) ==> r == title
  {
    Markup.StripTagsTagFree(title);
    if Markup.TagFree(title) then Markup.StripTagsFixed(title); Markup.StripTags(title)
    else Markup.StripTags(title)
  }

  /** `_parse_video_info`; the play-count text is interpreted by `playCount`. */
  function ParseVideoInfo(hit: SearchHit, playCount: string -> int): (v: Video)
    ensures v.bvid == hit.bvid && v.url == VideoPagePrefix + hit.bvid
    ensures v.duration == ParseDuration(hit.duration) && Markup.TagFree(v.title)
  {
    Video(hit.bvid, CleanTitle(hit.title), hit.author, ParseDuration(hit.duration),
          playCount(hit.play), hit.description, VideoPagePrefix + hit.bvid, hit.pic, hit.pubdate)
  }

  /**
   * The videos `_search_single_keyword` keeps from one result list: each hit
   * turned into a record by `parse`, kept if at least `minDuration` long.
   */
  function KeywordVideos(hits: seq<SearchHit>, minDuration: int, parse: SearchHit -> Video): (vs: seq<Video>)
    ensures |vs| <= |hits|
    ensures forall k :: 0 <= k < |vs| ==> vs[k].duration >= minDuration
  {
    if |hits| == 0 then []
    else
      var v := parse(hits[0]);
      var rest := KeywordVideos(hits[1..], minDuration, parse);
      if v.duration >= minDuration then [v] + rest else rest
  }

  /** A hit long enough is kept, as its parsed record. */
  lemma {:induction false} KeywordVideosKeeps(hits: seq<SearchHit>, minDuration: int, parse: SearchHit -> Video, k: nat)
    requires k < |hits| && parse(hits[k]).duration >= minDuration
    ensures parse(hits[k]) in KeywordVideos(hits, minDuration, parse)
  {
    if k > 0 {
      assert hits[1..][k - 1] == hits[k];
      KeywordVideosKeeps(hits[1..], minDuration, parse, k - 1);
    }
  }

  /** Every kept video is the record of one of the hits. */
  lemma {:induction false} KeywordVideosFromHits(hits: seq<SearchHit>, minDuration: int, parse: SearchHit -> Video, v: Video)
    requires v in KeywordVideos(hits, minDuration, parse)
    ensures exists k :: 0 <= k < |hits| && parse(hits[k]) == v
  {
    if parse(hits[0]) != v {
      KeywordVideosFromHits(hits[1..], minDuration, parse, v);
      var k :| 0 <= k < |hits[1..]| && parse(hits[1..][k]) == v;
      assert parse(hits[k + 1]) == v;
    }
  }

  /** The five queries `search_videos` sends, in order. */
  function SearchKeywords(book: string): seq<string> {
    [book + " 书评", book + " 解读", book + " 分析", book + " 读后感", book + " 推荐"]
  }

  /** All kept videos of all keywords, in keyword order; a failed search contributes nothing. */
  function CollectVideos(keywords: seq<string>, search: string -> seq<SearchHit>, minDuration: int,
                         parse: SearchHit -> Video): (vs: seq<Video>)
    ensures forall k :: 0 <= k < |vs| ==> vs[k].duration >= minDuration
  {
    if |keywords| == 0 then []
    else KeywordVideos(search(keywords[0]), minDuration, parse)
         + CollectVideos(keywords[1..], search, minDuration, parse)
  }

  // ---------------------------------------------------------------------------
  // First-occurrence de-duplication
  // ---------------------------------------------------------------------------

  /** Position `i` holds the first video with its (non-empty) `bvid`. */
  predicate IsFirst(vs: seq<Video>, i: nat)
    requires i < |vs|
  {
    vs[i].bvid != "" && forall j :: 0 <= j < i ==> vs[j].bvid != vs[i].bvid
  }

  /** The positions below `n` that hold first occurrences, ascending. */
  function FirstPositions(vs: seq<Video>, n: nat): (idx: seq<nat>)
    requires n <= |vs|
    ensures forall k :: 0 <= k < |idx| ==> idx[k] < n && IsFirst(vs, idx[k])
    ensures forall a, b :: 0 <= a < b < |idx| ==> idx[a] < idx[b]
    ensures forall j :: 0 <= j < n && IsFirst(vs, j) ==> j in idx
  {
    if n == 0 then []
    else FirstPositions(vs, n - 1) + (if IsFirst(vs, n - 1) then [n - 1] else [])
  }

  function Pick(vs: seq<Video>, idx: seq<nat>): (r: seq<Video>)
    requires forall k :: 0 <= k < |idx| ==> idx[k] < |vs|
    ensures |r| == |idx| && forall k :: 0 <= k < |idx| ==> r[k] == vs[idx[k]]
  {
    seq(|idx|, k requires 0 <= k < |idx| => vs[idx[k]])
  }

  /** The first occurrence of every non-empty `bvid`, in input order. */
  function Dedup(vs: seq<Video>): (d: seq<Video>)
  {
    Pick(vs, FirstPositions(vs, |vs|))
  }

  /** The `bvid`s met in the first `n` videos, without the empty one. */
  function SeenBvids(vs: seq<Video>, n: nat): set<string>
    requires n <= |vs|
  {
    set j | 0 <= j < n && vs[j].bvid != "" :: vs[j].bvid
  }

  /** `_deduplicate_videos`: one pass with a set of seen ids. */
  method DeduplicateVideos(videos: seq<Video>) returns (unique: seq<Video>)
    ensures unique == Dedup(videos)
  {
    var seen: set<string> := {};
    unique := [];
    var i := 0;
    while i < |videos|
      invariant i <= |videos|
      invariant seen == SeenBvids(videos, i)
      invariant unique == Pick(videos, FirstPositions(videos, i))
    {
      var bvid := videos[i].bvid;
      assert IsFirst(videos, i) <==> bvid != "" && bvid !in seen;
      if bvid != "" && bvid !in seen {
        seen := seen + {bvid};
        unique := unique + [videos[i]];
      }
      i := i + 1;
    }
  }

  /** The kept videos have pairwise distinct, non-empty `bvid`s. */
  lemma DedupDistinct(vs: seq<Video>)
    ensures forall k :: 0 <= k < |Dedup(vs)| ==> Dedup(vs)[k].bvid != ""
    ensures forall a, b :: 0 <= a < b < |Dedup(vs)| ==> Dedup(vs)[a].bvid != Dedup(vs)[b].bvid
  {
    var idx := FirstPositions(vs, |vs|);
    forall a, b | 0 <= a < b < |idx| ensures vs[idx[a]].bvid != vs[idx[b]].bvid {
      assert IsFirst(vs, idx[b]);
    }
  }

  /** The position of the first video with `bvid` at or after `from`, given one exists below `to`. */
  lemma FirstWith(vs: seq<Video>, j: nat) returns (f: nat)
    requires j < |vs| && vs[j].bvid != ""
    ensures f <= j && vs[f].bvid == vs[j].bvid && IsFirst(vs, f)
    decreases j
  {
    if IsFirst(vs, j) {
      f := j;
    } else {
      var e :| 0 <= e < j && vs[e].bvid == vs[j].bvid;
      f := FirstWith(vs, e);
    }
  }

  /**
   * Nothing is lost but repeats: every non-empty `bvid` of the input is the
   * `bvid` of a kept video, and that video is its first occurrence.
   */
  lemma DedupCovers(vs: seq<Video>, j: nat)
    requires j < |vs| && vs[j].bvid != ""
    ensures exists k :: 0 <= k < |Dedup(vs)| && Dedup(vs)[k].bvid == vs[j].bvid
  {
    var f := FirstWith(vs, j);
    var idx := FirstPositions(vs, |vs|);
    assert f in idx;
    var k :| 0 <= k < |idx| && idx[k] == f;
    assert Dedup(vs)[k] == vs[f];
  }

  /** De-duplication keeps input order: kept video `k` is input video `FirstPositions(...)[k]`, ascending. */
  lemma DedupOrder(vs: seq<Video>)
    ensures |Dedup(vs)| == |FirstPositions(vs, |vs|)|
    ensures forall k :: 0 <= k < |Dedup(vs)| ==> Dedup(vs)[k] == vs[FirstPositions(vs, |vs|)[k]]
  {
  }

  /** When every position holds a first occurrence, the first positions are all of them. */
  lemma {:induction false} AllFirstPositions(vs: seq<Video>, n: nat)
    requires n <= |vs| && forall j :: 0 <= j < n ==> IsFirst(vs, j)
    ensures FirstPositions(vs, n) == seq(n, k => k)
  {
    if n > 0 {
      AllFirstPositions(vs, n - 1);
      assert IsFirst(vs, n - 1);
      assert seq(n, k => k) == seq(n - 1, k => k) + [n - 1];
    }
  }

  /** An input without repeated or empty `bvid`s passes through unchanged. */
  lemma DedupDistinctInput(vs: seq<Video>)
    requires forall k :: 0 <= k < |vs| ==> vs[k].bvid != ""
    requires forall a, b :: 0 <= a < b < |vs| ==> vs[a].bvid != vs[b].bvid
    ensures Dedup(vs) == vs
  {
    AllFirstPositions(vs, |vs|);
  }

  // ---------------------------------------------------------------------------
  // search_videos
  // ---------------------------------------------------------------------------

  function PlayCount(v: Video): int {
    v.playCount
  }

  function Bvid(v: Video): string {
    v.bvid
  }

  /** `_parse_video_info` with the given play-count reading. */
  function Parser(playCount: string -> int): SearchHit -> Video {
    hit => ParseVideoInfo(hit, playCount)
  }

  /** The de-duplicated candidates, before sorting. */
  function Candidates(book: string, minDuration: int, search: string -> seq<SearchHit>,
                      playCount: string -> int): seq<Video>
  {
    Dedup(CollectVideos(SearchKeywords(book), search, minDuration, Parser(playCount)))
  }

  /** The candidates by play count, highest first, ties in candidate order. */
  function Ranked(book: string, minDuration: int, search: string -> seq<SearchHit>,
                  playCount: string -> int): seq<Video>
  {
    SortDesc(Candidates(book, minDuration, search, playCount), PlayCount)
  }

  /** `search_videos`: the ten most played distinct videos that are long enough. */
  function SearchVideos(book: string, minDuration: int, search: string -> seq<SearchHit>,
                        playCount: string -> int): (top: seq<Video>)
    ensures |top| == if |Candidates(book, minDuration, search, playCount)| < TopCount
                     then |Candidates(book, minDuration, search, playCount)| else TopCount
    ensures multiset(top) <= multiset(Candidates(book, minDuration, search, playCount))
    ensures NonIncreasing(top, PlayCount)
  {
    var ranked := Ranked(book, minDuration, search, playCount);
    var top := SliceTo(ranked, TopCount);
    assert ranked == top + ranked[|top|..];
    top
  }

  /** Every candidate is one of the collected videos, so it is long enough. */
  lemma CandidatesLongEnough(book: string, minDuration: int, search: string -> seq<SearchHit>,
                             playCount: string -> int)
    ensures forall v :: v in Candidates(book, minDuration, search, playCount) ==> v.duration >= minDuration
  {
    var all := CollectVideos(SearchKeywords(book), search, minDuration, Parser(playCount));
    DedupOrder(all);
  }

  /** What `search_videos` returns is long enough and has distinct `bvid`s. */
  lemma SearchResultsQualify(book: string, minDuration: int, search: string -> seq<SearchHit>,
                             playCount: string -> int)
    ensures forall k :: 0 <= k < |SearchVideos(book, minDuration, search, playCount)|
              ==> SearchVideos(book, minDuration, search, playCount)[k].duration >= minDuration
    ensures forall a, b :: 0 <= a < b < |SearchVideos(book, minDuration, search, playCount)|
              ==> (Bvid(SearchVideos(book, minDuration, search, playCount)[a])
                   != Bvid(SearchVideos(book, minDuration, search, playCount)[b]))
  {
    var cands := Candidates(book, minDuration, search, playCount);
    var ranked := Ranked(book, minDuration, search, playCount);
    var top := SearchVideos(book, minDuration, search, playCount);
    CandidatesLongEnough(book, minDuration, search, playCount);
    DedupDistinct(CollectVideos(SearchKeywords(book), search, minDuration, Parser(playCount)));
    DistinctKeysPermute(cands, ranked, Bvid);
    forall k | 0 <= k < |top| ensures top[k].duration >= minDuration {
      assert top[k] == ranked[k];
      assert ranked[k] in multiset(cands);
    }
  }

  /**
   * The candidates left out are those ranked from the eleventh on, and none
   * of them has more plays than any video returned.
   */
  lemma SearchKeepsMostPlayed(book: string, minDuration: int, search: string -> seq<SearchHit>,
                              playCount: string -> int, j: nat)
    requires TopCount <= j < |Ranked(book, minDuration, search, playCount)|
    ensures multiset(Ranked(book, minDuration, search, playCount)[TopCount..])
         == multiset(Candidates(book, minDuration, search, playCount))
            - multiset(SearchVideos(book, minDuration, search, playCount))
    ensures forall k :: 0 <= k < |SearchVideos(book, minDuration, search, playCount)|
              ==> SearchVideos(book, minDuration, search, playCount)[k].playCount
                  >= Ranked(book, minDuration, search, playCount)[j].playCount
  {
    var ranked := Ranked(book, minDuration, search, playCount);
    var top := SearchVideos(book, minDuration, search, playCount);
    assert top == ranked[..TopCount];
    assert ranked == top + ranked[TopCount..];
    forall k | 0 <= k < |top| ensures top[k].playCount >= ranked[j].playCount {
      assert PlayCount(ranked[k]) >= PlayCount(ranked[j]);
    }
  }

  /** Videos with equal play counts come out in their de-duplicated order. */
  lemma SearchStable(book: string, minDuration: int, search: string -> seq<SearchHit>,
                     playCount: string -> int, c: int)
    ensures WithKey(Ranked(book, minDuration, search, playCount), PlayCount, c)
         == WithKey(Candidates(book, minDuration, search, playCount), PlayCount, c)
  {
    SortDescStable(Candidates(book, minDuration, search, playCount), PlayCount, c);
  }

  // ---------------------------------------------------------------------------
  // download_videos
  // ---------------------------------------------------------------------------

  /**
   * The bookkeeping of `download_videos`: the directory it creates (none
   * for an empty list), the videos it tries, and the info files it writes.
   */
  datatype Downloads = Downloads(directory: Option<string>, attempted: seq<Video>, infoFiles: seq<string>)

  function DownloadDir(book: string): string {
    book + "/video"
  }

  /** The info file of the video at (zero-based) position `k` of the batch. */
  function InfoFileName(dir: string, k: nat): string {
    dir + "/video_" + NatToString(k + 1) + "_info.json"
  }

  /**
   * Whether the video at a batch position gets its info file. `raises` says
   * whether the try block raises; `retcode` is what `ydl.download` returns.
   * With `ignoreerrors` set, yt-dlp reports a failed download through a
   * non-zero return code instead of raising. The code as written records
   * every video whose try block does not raise; `checkCode` adds the check
   * of the return code.
   */
  predicate Recorded(v: Video, raises: Video -> bool, retcode: Video -> int, checkCode: bool) {
    !raises(v) && (checkCode ==> retcode(v) == 0)
  }

  /** Info files of the batch from position `from` on, for the videos that are recorded. */
  function InfoFiles(dir: string, batch: seq<Video>, raises: Video -> bool, retcode: Video -> int,
                     checkCode: bool, from: nat): seq<string>
    requires from <= |batch|
    decreases |batch| - from
  {
    if from == |batch| then []
    else (if Recorded(batch[from], raises, retcode, checkCode) then [InfoFileName(dir, from)] else [])
         + InfoFiles(dir, batch, raises, retcode, checkCode, from + 1)
  }

  /** `download_videos`, with or without the return-code check. */
  function DownloadVideosWith(videos: seq<Video>, book: string, maxVideos: int, raises: Video -> bool,
                              retcode: Video -> int, checkCode: bool): (d: Downloads)
    ensures |videos| == 0 ==> d == Downloads(None, [], [])
    ensures |videos| > 0 ==> d.directory == Some(DownloadDir(book))
    ensures |d.attempted| <= |videos| && d.attempted == videos[..|d.attempted|]
    ensures 0 <= maxVideos ==> |d.attempted| == if |videos| < maxVideos then |videos| else maxVideos
    ensures maxVideos < 0 ==> |d.attempted| == if |videos| + maxVideos < 0 then 0 else |videos| + maxVideos
    ensures |d.infoFiles| <= |d.attempted|
  {
    if |videos| == 0 then Downloads(None, [], [])
    else
      var batch := SliceTo(videos, maxVideos);
      InfoFilesCount(DownloadDir(book), batch, raises, retcode, checkCode, 0);
      Downloads(Some(DownloadDir(book)), batch, InfoFiles(DownloadDir(book), batch, raises, retcode, checkCode, 0))
  }

  /**
   * `download_videos` as written: an empty list makes no directory; otherwise
   * `videos[:max_videos]` is tried in order, and every video whose try block
   * does not raise is recorded, whatever its download returned.
   */
  function DownloadVideos(videos: seq<Video>, book: string, maxVideos: int, raises: Video -> bool,
                          retcode: Video -> int): (d: Downloads)
    ensures |videos| == 0 ==> d == Downloads(None, [], [])
    ensures |videos| > 0 ==> d.directory == Some(DownloadDir(book))
    ensures |d.attempted| <= |videos| && d.attempted == videos[..|d.attempted|]
    ensures 0 <= maxVideos ==> |d.attempted| == if |videos| < maxVideos then |videos| else maxVideos
    ensures maxVideos < 0 ==> |d.attempted| == if |videos| + maxVideos < 0 then 0 else |videos| + maxVideos
    ensures |d.infoFiles| <= |d.attempted|
  {
    DownloadVideosWith(videos, book, maxVideos, raises, retcode, false)
  }

  /** `download_videos` corrected: a video is recorded only when its download returned 0. */
  function DownloadVideosCorrected(videos: seq<Video>, book: string, maxVideos: int, raises: Video -> bool,
                                   retcode: Video -> int): Downloads
  {
    DownloadVideosWith(videos, book, maxVideos, raises, retcode, true)
  }

  lemma {:induction false} InfoFilesCount(dir: string, batch: seq<Video>, raises: Video -> bool,
                                          retcode: Video -> int, checkCode: bool, from: nat)
    requires from <= |batch|
    ensures |InfoFiles(dir, batch, raises, retcode, checkCode, from)| <= |batch| - from
    decreases |batch| - from
  {
    if from < |batch| {
      InfoFilesCount(dir, batch, raises, retcode, checkCode, from + 1);
    }
  }

  /** Info file names of different positions differ. */
  lemma InfoFileNameInjective(dir: string, j: nat, k: nat)
    requires InfoFileName(dir, j) == InfoFileName(dir, k)
    ensures j == k
  {
    var a, b := NatToString(j + 1), NatToString(k + 1);
    var p := dir + "/video_";
    assert InfoFileName(dir, j) == p + (a + "_info.json");
    assert InfoFileName(dir, k) == p + (b + "_info.json");
    CancelPrefix(p, a + "_info.json", b + "_info.json");
    assert |a| == |b|;
    assert a == (a + "_info.json")[..|a|];
    assert b == (b + "_info.json")[..|b|];
    NatToStringInjective(j + 1, k + 1);
  }

  /** An info file is written for a position exactly when its video is recorded. */
  lemma {:induction false} InfoFilesExactly(dir: string, batch: seq<Video>, raises: Video -> bool,
                                            retcode: Video -> int, checkCode: bool, from: nat, k: nat)
    requires from <= k < |batch|
    ensures InfoFileName(dir, k) in InfoFiles(dir, batch, raises, retcode, checkCode, from)
        <==> Recorded(batch[k], raises, retcode, checkCode)
    decreases |batch| - from
  {
    if from < k {
      InfoFilesExactly(dir, batch, raises, retcode, checkCode, from + 1, k);
      if Recorded(batch[from], raises, retcode, checkCode) && InfoFileName(dir, k) == InfoFileName(dir, from) {
        InfoFileNameInjective(dir, k, from);
      }
    } else {
      InfoFilesAfter(dir, batch, raises, retcode, checkCode, from + 1, k);
    }
  }

  /** Positions before `from` get no info file from the rest of the batch. */
  lemma {:induction false} InfoFilesAfter(dir: string, batch: seq<Video>, raises: Video -> bool,
                                          retcode: Video -> int, checkCode: bool, from: nat, k: nat)
    requires k < from <= |batch|
    ensures InfoFileName(dir, k) !in InfoFiles(dir, batch, raises, retcode, checkCode, from)
    decreases |batch| - from
  {
    if from < |batch| {
      InfoFilesAfter(dir, batch, raises, retcode, checkCode, from + 1, k);
      if InfoFileName(dir, k) == InfoFileName(dir, from) {
        InfoFileNameInjective(dir, k, from);
      }
    }
  }

  /** As written, `video_{k+1}_info.json` is written exactly for the attempted videos whose try block does not raise. */
  lemma DownloadInfoFiles(videos: seq<Video>, book: string, maxVideos: int, raises: Video -> bool,
                          retcode: Video -> int, k: nat)
    requires k < |DownloadVideos(videos, book, maxVideos, raises, retcode).attempted|
    ensures InfoFileName(DownloadDir(book), k) in DownloadVideos(videos, book, maxVideos, raises, retcode).infoFiles
        <==> !raises(videos[k])
  {
    var batch := SliceTo(videos, maxVideos);
    InfoFilesExactly(DownloadDir(book), batch, raises, retcode, false, 0, k);
  }

  /**
   * As written, a video whose download failed without raising (a non-zero
   * return code) still gets its info file, which is returned as downloaded.
   */
  lemma AsWrittenRecordsFailedDownload(videos: seq<Video>, book: string, maxVideos: int, raises: Video -> bool,
                                       retcode: Video -> int, k: nat)
    requires k < |DownloadVideos(videos, book, maxVideos, raises, retcode).attempted|
    requires !raises(videos[k]) && retcode(videos[k]) != 0
    ensures InfoFileName(DownloadDir(book), k) in DownloadVideos(videos, book, maxVideos, raises, retcode).infoFiles
  {
    DownloadInfoFiles(videos, book, maxVideos, raises, retcode, k);
  }

  /**
   * Corrected, the same videos are tried and `video_{k+1}_info.json` is
   * written exactly when the try block does not raise and the download
   * returned 0.
   */
  lemma CorrectedRecordsDownloads(videos: seq<Video>, book: string, maxVideos: int, raises: Video -> bool,
                                  retcode: Video -> int, k: nat)
    requires k < |DownloadVideos(videos, book, maxVideos, raises, retcode).attempted|
    ensures DownloadVideosCorrected(videos, book, maxVideos, raises, retcode).attempted
         == DownloadVideos(videos, book, maxVideos, raises, retcode).attempted
    ensures InfoFileName(DownloadDir(book), k) in DownloadVideosCorrected(videos, book, maxVideos, raises, retcode).infoFiles
        <==> !raises(videos[k]) && retcode(videos[k]) == 0
  {
    var batch := SliceTo(videos, maxVideos);
    InfoFilesExactly(DownloadDir(book), batch, raises, retcode, true, 0, k);
  }
}
