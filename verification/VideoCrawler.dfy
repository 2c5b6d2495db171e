/**
 * The video crawler's deterministic part: the platform-prefixed id taken
 * from a YouTube or bilibili URL, the audio and transcript paths sharing
 * that id, and which of download and transcription a run performs.
 *
 * Downloading and transcribing are external tools; here they are the
 * parameters `download` (did it succeed) and `transcribe` (the text, empty
 * when it failed). The filesystem is the predicate `onDisk`.
 */
module VideoCrawler {
  import opened Outcomes
  import opened Strings
  import opened Urls
  import opened Paths

  // ---------------------------------------------------------------------------
  // extract_video_id
  // ---------------------------------------------------------------------------

  /** The host tests are substring tests on the network location. */
  predicate IsYoutubeHost(netloc: string) {
    Contains(netloc, "youtube.com") || Contains(netloc, "youtu.be")
  }

  predicate IsBilibiliHost(netloc: string) {
    Contains(netloc, "bilibili.com")
  }

  /** A path with at most one trailing `/` removed. */
  function TrimSlash(path: string): (r: string)
    requires |path| > 0
    ensures r == path || r + "/" == path
  {
    if path[|path| - 1] == '/' then path[..|path| - 1] else path
  }

  /** The last `/`-separated segment. */
  function LastSegment(s: string): (r: string)
    ensures '/' !in r
  {
    var parts := Split(s, "/");
    SplitCharPieces(s, '/');
    parts[|parts| - 1]
  }

  /**
   * `extract_video_id`: `ytb_` and the `youtu.be` path or the `v` query
   * value for YouTube, `bilibili_` and the last path segment for bilibili,
   * `None` for any other host or a YouTube URL that is neither. A watch URL
   * without `v` raises `KeyError`; a bilibili URL with an empty path raises
   * `IndexError`; an unbalanced bracket in the host raises `ValueError`.
   */
  function ExtractVideoId(url: string, unquote: string -> string): (r: Result<Option<string>>)
    ensures UrlParse(url).Err? <==> r.Err? && r.error == ValueError
    ensures (UrlParse(url).Ok? && !IsYoutubeHost(UrlParse(url).value.netloc)
             && !IsBilibiliHost(UrlParse(url).value.netloc)) ==> r == Ok(None)
    ensures UrlParse(url).Ok? && IsYoutubeHost(UrlParse(url).value.netloc) && r.Ok? && r.value.Some?
            ==> StartsWith(r.value.value, "ytb_")
    ensures UrlParse(url).Ok? && !IsYoutubeHost(UrlParse(url).value.netloc) && r.Ok? && r.value.Some?
            ==> StartsWith(r.value.value, "bilibili_") && '/' !in r.value.value[|"bilibili_"|..]
  {
    match UrlParse(url)
    case Err(e) => Err(e)
    case Ok(u) =>
      if IsYoutubeHost(u.netloc) then
        if u.netloc == "youtu.be" then Ok(Some("ytb_" + SliceFrom(u.path, 1)))
        else if Contains(u.path, "watch") then
          var qs := ParseQs(u.query, unquote);
          if "v" !in qs then Err(KeyError)
          else if |qs["v"]| == 0 then Err(IndexError)
          else Ok(Some("ytb_" + qs["v"][0]))
        else Ok(None)
      else if IsBilibiliHost(u.netloc) then
        if |u.path| == 0 then Err(IndexError)
        else
          var id := LastSegment(TrimSlash(u.path));
          assert ("bilibili_" + id)[|"bilibili_"|..] == id;
          Ok(Some("bilibili_" + id))
      else Ok(None)
  }

  /** `https` is a lower-case scheme. */
  lemma HttpsIsScheme()
    ensures IsScheme("https") && forall i :: 0 <= i < |"https"| ==> !IsUpper("https"[i])
  {
  }

  /** A host free of delimiters and brackets. */
  predicate CleanHost(h: string) {
    (forall i :: 0 <= i < |h| ==> !IsNetlocDelim(h[i])) && '[' !in h && ']' !in h
  }

  /** A path `urlparse` gives back whole: empty or absolute, with no `?`, `#` or `;`. */
  predicate CleanPath(p: string) {
    (|p| == 0 || p[0] == '/') && '?' !in p && '#' !in p && ';' !in p
  }

  lemma YoutuBeFacts()
    ensures CleanHost("youtu.be") && IsYoutubeHost("youtu.be")
  {
    assert OccursAt("youtu.be", "youtu.be", 0);
  }

  /** A short link `https://youtu.be/{id}` gives `ytb_{id}`. */
  lemma ShortLinkId(id: string, unquote: string -> string)
    requires CleanPath("/" + id)
    ensures ExtractVideoId(Unparse(Url("https", "youtu.be", "/" + id, "", "", "")), unquote) == Ok(Some("ytb_" + id))
  {
    HttpsIsScheme();
    YoutuBeFacts();
    ParseUnparse(Url("https", "youtu.be", "/" + id, "", "", ""));
    assert SliceFrom("/" + id, 1) == id;
  }

  lemma WatchInPath()
    ensures Contains("/watch", "watch")
  {
    assert OccursAt("/watch", "watch", 1);
  }

  lemma VKeyDecodes(unquote: string -> string)
    requires unquote("v") == "v"
    ensures DecodeComponent("v", unquote) == "v"
  {
    assert MapChar("v", '+', ' ') == "v";
  }

  /** The `v` value of a watch query whose first field is `v={enc}`. */
  lemma WatchQueryValue(enc: string, rest: string, unquote: string -> string)
    requires '&' !in enc && |enc| > 0
    requires unquote("v") == "v"
    ensures var qs := ParseQs("v" + "=" + enc + "&" + rest, unquote);
      "v" in qs && |qs["v"]| > 0 && qs["v"][0] == DecodeComponent(enc, unquote)
  {
    VKeyDecodes(unquote);
    LeadingField("v", enc, rest, unquote);
  }

  /** A watch link on a YouTube host gives `ytb_` and its decoded `v` parameter. */
  lemma WatchLinkId(host: string, enc: string, rest: string, unquote: string -> string)
    requires CleanHost(host) && Contains(host, "youtube.com") && host != "youtu.be"
    requires '&' !in enc && '#' !in enc && '#' !in rest && |enc| > 0
    requires unquote("v") == "v"
    ensures var u := Url("https", host, "/watch", "", "v" + "=" + enc + "&" + rest, "");
      ExtractVideoId(Unparse(u), unquote) == Ok(Some("ytb_" + DecodeComponent(enc, unquote)))
  {
    var query := "v" + "=" + enc + "&" + rest;
    assert '#' !in query by {
      forall i | 0 <= i < |query| ensures query[i] != '#' {
        if 2 <= i < 2 + |enc| { assert query[i] == enc[i - 2]; }
        else if i > 2 + |enc| { assert query[i] == rest[i - 3 - |enc|]; }
      }
    }
    HttpsIsScheme();
    ParseUnparse(Url("https", host, "/watch", "", query, ""));
    WatchInPath();
    WatchQueryValue(enc, rest, unquote);
  }

  /** A watch link whose query has no `v` field raises `KeyError`. */
  lemma WatchWithoutV(url: string, unquote: string -> string)
    requires UrlParse(url).Ok?
    requires var u := UrlParse(url).value;
      Contains(u.netloc, "youtube.com") && u.netloc != "youtu.be" && Contains(u.path, "watch")
      && "v" !in ParseQs(u.query, unquote)
    ensures ExtractVideoId(url, unquote) == Err(KeyError)
  {
  }

  /** The last segment of `{p}/{id}` is `id`. */
  lemma LastSegmentOf(p: string, id: string)
    requires '/' !in id
    ensures LastSegment(p + ['/'] + id) == id
  {
    SplitAppendChar(p, '/', id);
    SplitCharAbsent(id, '/');
  }

  /** A parsed bilibili link with a path gives `bilibili_` and the last segment of the path less one trailing slash. */
  lemma BilibiliBranch(url: string, unquote: string -> string)
    requires UrlParse(url).Ok?
    requires var u := UrlParse(url).value; IsBilibiliHost(u.netloc) && !IsYoutubeHost(u.netloc) && |u.path| > 0
    ensures ExtractVideoId(url, unquote) == Ok(Some("bilibili_" + LastSegment(TrimSlash(UrlParse(url).value.path))))
  {
  }

  /** Trimming a path that ends in a non-slash, with or without one slash added, gives it back. */
  lemma TrimOneSlash(path: string, trailing: string)
    requires |path| > 0 && path[|path| - 1] != '/' && (trailing == "" || trailing == "/")
    ensures TrimSlash(path + trailing) == path
  {
    if trailing == "/" {
      assert (path + trailing)[..|path|] == path;
    } else {
      assert path + trailing == path;
    }
  }

  /**
   * A bilibili link `{host}{p}/{id}` or `{host}{p}/{id}/` gives
   * `bilibili_{id}`: one trailing slash is dropped, then the last segment taken.
   */
  lemma BilibiliLinkId(host: string, p: string, id: string, trailing: string, unquote: string -> string)
    requires CleanHost(host) && IsBilibiliHost(host) && !IsYoutubeHost(host)
    requires '/' !in id && |id| > 0 && (trailing == "" || trailing == "/")
    requires CleanPath(p + ['/'] + id + trailing)
    ensures var u := Url("https", host, p + ['/'] + id + trailing, "", "", "");
      ExtractVideoId(Unparse(u), unquote) == Ok(Some("bilibili_" + id))
  {
    var path := p + ['/'] + id + trailing;
    var u := Url("https", host, path, "", "", "");
    HttpsIsScheme();
    ParseUnparse(u);
    BilibiliBranch(Unparse(u), unquote);
    assert (p + ['/'] + id)[|p + ['/'] + id| - 1] == id[|id| - 1];
    TrimOneSlash(p + ['/'] + id, trailing);
    LastSegmentOf(p, id);
  }

  // ---------------------------------------------------------------------------
  // process_video_url
  // ---------------------------------------------------------------------------

  /** The directory a crawl saves to: `{output_dir}/video`. */
  function VideoDir(outputDir: string): string {
    PathJoin(outputDir, "video")
  }

  function AudioPath(baseDir: string, id: string): string {
    PathJoin(baseDir, id + ".mp3")
  }

  function TextPath(baseDir: string, id: string): string {
    PathJoin(baseDir, id + ".txt")
  }

  /** The audio and the transcript of a video sit side by side, differing only in the extension. */
  lemma PathsShareStem(baseDir: string, id: string)
    requires |id| > 0 && id[0] != '/'
    ensures AudioPath(baseDir, id) == PathJoin(baseDir, id) + ".mp3"
    ensures TextPath(baseDir, id) == PathJoin(baseDir, id) + ".txt"
  {
    JoinExtension(baseDir, id, ".mp3");
    JoinExtension(baseDir, id, ".txt");
  }

  /** What one `process_video_url` did: the audio path downloaded to, the audio transcribed, the transcript written. */
  datatype VideoRun = VideoRun(downloaded: Option<string>, transcribed: Option<string>, written: Option<(string, string)>)

  const Nothing: VideoRun := VideoRun(None, None, None)

  /** The steps after the id is known. */
  function ProcessId(baseDir: string, url: string, id: string, onDisk: string -> bool,
                     download: (string, string) -> bool, transcribe: string -> string): (r: VideoRun)
    ensures r.downloaded.Some? <==> !onDisk(AudioPath(baseDir, id))
    ensures r.downloaded.Some? ==> r.downloaded.value == AudioPath(baseDir, id)
    ensures r.transcribed.Some? <==>
      (onDisk(AudioPath(baseDir, id)) || download(url, AudioPath(baseDir, id))) && !onDisk(TextPath(baseDir, id))
    ensures r.transcribed.Some? ==> r.transcribed.value == AudioPath(baseDir, id)
    ensures r.written.Some? <==> r.transcribed.Some? && transcribe(AudioPath(baseDir, id)) != ""
    ensures r.written.Some? ==> r.written.value == (TextPath(baseDir, id), transcribe(AudioPath(baseDir, id)))
  {
    var audio := AudioPath(baseDir, id);
    var text := TextPath(baseDir, id);
    var downloaded := if onDisk(audio) then None else Some(audio);
    if downloaded.Some? && !download(url, audio) then VideoRun(downloaded, None, None)
    else if onDisk(text) then VideoRun(downloaded, None, None)
    else
      var t := transcribe(audio);
      VideoRun(downloaded, Some(audio), if t != "" then Some((text, t)) else None)
  }

  /**
   * `process_video_url`: nothing happens without an id; otherwise an existing
   * audio file skips the download, a failed download stops the run, an
   * existing transcript skips transcription, and only a non-empty
   * transcription is written.
   */
  function ProcessVideoUrl(baseDir: string, url: string, unquote: string -> string, onDisk: string -> bool,
                           download: (string, string) -> bool, transcribe: string -> string): (r: Result<VideoRun>)
    ensures ExtractVideoId(url, unquote).Err? <==> r.Err?
    ensures ExtractVideoId(url, unquote) == Ok(None) ==> r == Ok(Nothing)
    ensures ExtractVideoId(url, unquote).Ok? && ExtractVideoId(url, unquote).value.Some? ==>
      r == Ok(ProcessId(baseDir, url, ExtractVideoId(url, unquote).value.value, onDisk, download, transcribe))
  {
    match ExtractVideoId(url, unquote)
    case Err(e) => Err(e)
    case Ok(None) => Ok(Nothing)
    case Ok(Some(id)) => Ok(ProcessId(baseDir, url, id, onDisk, download, transcribe))
  }

  /** Every id the extraction gives starts with a platform prefix, so it is never an absolute path and never empty. */
  lemma IdsAreRelative(url: string, unquote: string -> string)
    requires ExtractVideoId(url, unquote).Ok? && ExtractVideoId(url, unquote).value.Some?
    ensures var id := ExtractVideoId(url, unquote).value.value;
      |id| > 0 && id[0] != '/'
  {
    var id := ExtractVideoId(url, unquote).value.value;
    assert StartsWith(id, "ytb_") || StartsWith(id, "bilibili_");
    assert id[0] == 'y' || id[0] == 'b';
  }

  /** Re-running a video whose audio and transcript already exist does nothing. */
  lemma RerunIsIdle(baseDir: string, url: string, id: string, onDisk: string -> bool,
                    download: (string, string) -> bool, transcribe: string -> string)
    requires onDisk(AudioPath(baseDir, id)) && onDisk(TextPath(baseDir, id))
    ensures ProcessId(baseDir, url, id, onDisk, download, transcribe) == Nothing
  {
  }
}
