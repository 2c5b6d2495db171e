/**
 * The Douban review crawler: the book id hidden in a search-result redirect
 * link, the paginated review-index URLs, the review links found on each
 * index page, and the `douban_{id}.txt` files a crawl writes.
 *
 * The web is the parameter `fetch` (a request that raised gives `None`);
 * the search result page is given as its list of heading links; sleeping
 * between requests has no observable effect and is not modelled.
 */
module DoubanCrawler {
  import opened Outcomes
  import opened Strings
  import opened Urls

  /** The reader-proxy prefix of the packaged crawler when `JINA_READER_URL` is unset. */
  const ReaderJinaDefault: string := ""

  /** The reader-proxy prefix hard-wired into the stand-alone crawler. */
  const RootJina: string := "https://reader.victorique.site/"

  const SubjectPrefix: string := "https://book.douban.com/subject/"
  const ReviewPrefix: string := "https://book.douban.com/review/"

  /** How many review-index pages a crawl asks for (`range=5`). */
  const DefaultPages: nat := 5

  /** How many search results the packaged crawler follows (`limit=2`). */
  const DefaultLimit: nat := 2

  // ---------------------------------------------------------------------------
  // extract_subject_id / search_book
  // ---------------------------------------------------------------------------

  /** The second-to-last `/`-separated segment of a path, when there are more than two. */
  function SecondToLastSegment(path: string): (r: Option<string>)
    ensures r.Some? <==> |Split(path, "/")| > 2
    ensures r.Some? ==> r.value == Split(path, "/")[|Split(path, "/")| - 2] && '/' !in r.value
  {
    var parts := Split(path, "/");
    SplitCharPieces(path, '/');
    if |parts| > 2 then Some(parts[|parts| - 2]) else None
  }

  /**
   * A path with at least two slashes gives the segment between its last
   * two slashes, whatever comes before them.
   */
  lemma SecondToLastSegmentOf(head: string, seg: string, last: string)
    requires '/' !in seg && '/' !in last
    ensures SecondToLastSegment(head + ['/'] + (seg + ['/'] + last)) == Some(seg)
  {
    SplitAppendChar(head, '/', seg + ['/'] + last);
    SplitCutChar(seg, '/', last);
    SplitCharAbsent(last, '/');
  }

  /** A path with fewer than two slashes has no second-to-last segment. */
  lemma SecondToLastSegmentNone(a: string, b: string)
    requires '/' !in a && '/' !in b
    ensures SecondToLastSegment(a) == None
    ensures SecondToLastSegment(a + ['/'] + b) == None
  {
    SplitCharAbsent(a, '/');
    SplitCutChar(a, '/', b);
    SplitCharAbsent(b, '/');
  }

  /**
   * `extract_subject_id`: the `url` query parameter of the redirect link,
   * parsed in turn, gives its second-to-last path segment. A URL with an
   * unbalanced bracket in its host makes `urlparse` raise.
   */
  function ExtractSubjectId(link: string, unquote: string -> string): (r: Result<Option<string>>)
    ensures r.Ok? && r.value.Some? ==> '/' !in r.value.value
    ensures UrlParse(link).Err? ==> r.Err?
    ensures UrlParse(link).Ok? && FirstValue(ParseQs(UrlParse(link).value.query, unquote), "url") == ""
            ==> r == Ok(None)
  {
    match UrlParse(link)
    case Err(e) => Err(e)
    case Ok(outer) =>
      var bookUrl := FirstValue(ParseQs(outer.query, unquote), "url");
      if bookUrl == "" then Ok(None)
      else
        match UrlParse(bookUrl)
        case Err(e) => Err(e)
        case Ok(inner) => Ok(SecondToLastSegment(inner.path))
  }

  /** `f"https://book.douban.com/subject/{subject_id}/"`, where `None` prints as `None`. */
  function SubjectUrl(id: Option<string>): string {
    SubjectPrefix + (match id case Some(s) => s case None => "None") + "/"
  }

  /**
   * The redirect link the search page gives for a result whose target URL
   * is encoded as `enc`: `https://www.douban.com/link2/?url={enc}&{rest}`.
   */
  function RedirectLink(enc: string, rest: string): string {
    Unparse(RedirectRecord(enc, rest))
  }

  function RedirectRecord(enc: string, rest: string): Url {
    Url("https", "www.douban.com", "/link2/", "", "url" + "=" + enc + "&" + rest, "")
  }

  /** `"id/"` splits into the id and an empty piece. */
  lemma SplitIdSlash(id: string)
    requires '/' !in id
    ensures Split(id + ['/'] + "", "/") == [id, ""]
  {
    SplitAppendChar(id, '/', "");
    SplitCharAbsent(id, '/');
    SplitCharAbsent("", '/');
  }

  /** Prepending a slash-free segment and a slash adds that segment in front. */
  lemma SplitConsSegment(seg: string, rest: string)
    requires '/' !in seg
    ensures Split(seg + ['/'] + rest, "/") == [seg] + Split(rest, "/")
  {
    SplitCutChar(seg, '/', rest);
  }

  /** The path of a subject page, rebuilt from its segments. */
  lemma SubjectPathShape(id: string)
    ensures "/subject/" + id + "/" == "" + ['/'] + ("subject" + ['/'] + (id + ['/'] + ""))
  {
    assert "/subject/" == ['/'] + "subject" + ['/'];
  }

  /** The path of a subject page splits into `["", "subject", id, ""]`. */
  lemma SubjectPathSegments(id: string)
    requires '/' !in id
    ensures SecondToLastSegment("/subject/" + id + "/") == Some(id)
  {
    var t3 := id + ['/'] + "";
    var t2 := "subject" + ['/'] + t3;
    SplitIdSlash(id);
    SplitConsSegment("subject", t3);
    SplitConsSegment("", t2);
    SubjectPathShape(id);
  }

  /** The query of a redirect link has no `#`, so no fragment is cut from it. */
  lemma RedirectQueryHashFree(enc: string, rest: string)
    requires '#' !in enc && '#' !in rest
    ensures '#' !in RedirectRecord(enc, rest).query
  {
    var query := RedirectRecord(enc, rest).query;
    forall i | 0 <= i < |query| ensures query[i] != '#' {
      if i < 4 { assert query[i] == "url="[i]; }
      else if i < 4 + |enc| { assert query[i] == enc[i - 4]; }
      else if i > 4 + |enc| { assert query[i] == rest[i - 5 - |enc|]; }
    }
  }

  /** `https` is a lower-case scheme. */
  lemma HttpsScheme()
    ensures IsScheme("https") && forall i :: 0 <= i < |"https"| ==> !IsUpper("https"[i])
  {
  }

  /** A literal host free of delimiters and brackets. */
  predicate CleanHost(h: string) {
    (forall i :: 0 <= i < |h| ==> !IsNetlocDelim(h[i])) && '[' !in h && ']' !in h
  }

  lemma DoubanHostsClean()
    ensures CleanHost("www.douban.com") && CleanHost("book.douban.com")
  {
  }

  lemma RedirectWellFormed(enc: string, rest: string)
    requires '#' !in enc && '#' !in rest
    ensures WellFormed(RedirectRecord(enc, rest))
  {
    RedirectQueryHashFree(enc, rest);
    HttpsScheme();
    DoubanHostsClean();
  }

  /** `urlparse` takes a redirect link apart into its record. */
  lemma RedirectParses(enc: string, rest: string)
    requires '#' !in enc && '#' !in rest
    ensures UrlParse(RedirectLink(enc, rest)) == Ok(RedirectRecord(enc, rest))
  {
    RedirectWellFormed(enc, rest);
    ParseUnparse(RedirectRecord(enc, rest));
  }

  /** The record `urlparse` gives for a subject page. */
  function SubjectRecord(id: string): Url {
    Url("https", "book.douban.com", "/subject/" + id + "/", "", "", "")
  }

  lemma SubjectUrlUnparses(id: string)
    ensures Unparse(SubjectRecord(id)) == SubjectUrl(Some(id))
  {
    assert SubjectPrefix == "https" + "://" + "book.douban.com" + "/subject/";
  }

  /** `urlparse` takes a subject URL apart into its record. */
  lemma SubjectParses(id: string)
    requires '/' !in id && '?' !in id && '#' !in id && ';' !in id
    ensures UrlParse(SubjectUrl(Some(id))) == Ok(SubjectRecord(id))
  {
    var path := "/subject/" + id + "/";
    assert '?' !in path && '#' !in path && ';' !in path by {
      forall i | 0 <= i < |path| ensures path[i] != '?' && path[i] != '#' && path[i] != ';' {
        if 9 <= i < 9 + |id| { assert path[i] == id[i - 9]; }
      }
    }
    HttpsScheme();
    DoubanHostsClean();
    assert WellFormed(SubjectRecord(id));
    SubjectUrlUnparses(id);
    ParseUnparse(SubjectRecord(id));
  }

  lemma UrlKeyDecodes(unquote: string -> string)
    requires unquote("url") == "url"
    ensures DecodeComponent("url", unquote) == "url"
  {
    assert MapChar("url", '+', ' ') == "url";
  }

  /** The `url` parameter of a redirect link is its decoded target. */
  lemma RedirectTarget(enc: string, rest: string, unquote: string -> string)
    requires '&' !in enc && |enc| > 0
    requires unquote("url") == "url"
    ensures FirstValue(ParseQs(RedirectRecord(enc, rest).query, unquote), "url") == DecodeComponent(enc, unquote)
  {
    UrlKeyDecodes(unquote);
    LeadingField("url", enc, rest, unquote);
  }

  /**
   * The round trip the search relies on: a redirect link whose `url`
   * parameter decodes to a subject page yields that page's id.
   */
  lemma SubjectIdOfRedirect(id: string, enc: string, rest: string, unquote: string -> string)
    requires '/' !in id && '?' !in id && '#' !in id && ';' !in id
    requires '&' !in enc && '#' !in enc && '#' !in rest && |enc| > 0
    requires unquote("url") == "url"
    requires DecodeComponent(enc, unquote) == SubjectUrl(Some(id))
    ensures ExtractSubjectId(RedirectLink(enc, rest), unquote) == Ok(Some(id))
  {
    RedirectParses(enc, rest);
    RedirectTarget(enc, rest, unquote);
    SubjectParses(id);
    SubjectPathSegments(id);
  }

  /** The ids `extract` takes from the links, or the first error it raises. */
  function ExtractAll(hrefs: seq<string>, extract: string -> Result<Option<string>>): (r: Result<seq<Option<string>>>)
    ensures r.Ok? ==> |r.value| == |hrefs| && forall i :: 0 <= i < |hrefs| ==> extract(hrefs[i]) == Ok(r.value[i])
    ensures r.Err? <==> exists i :: 0 <= i < |hrefs| && extract(hrefs[i]).Err?
  {
    if |hrefs| == 0 then Ok([])
    else
      match extract(hrefs[0])
      case Err(e) => Err(e)
      case Ok(id) =>
        match ExtractAll(hrefs[1..], extract)
        case Err(e) =>
          var i :| 0 <= i < |hrefs[1..]| && extract(hrefs[1..][i]).Err?;
          assert extract(hrefs[i + 1]).Err?;
          Err(e)
        case Ok(ids) =>
          assert forall i :: 1 <= i < |hrefs| ==> hrefs[i] == hrefs[1..][i - 1];
          Ok([id] + ids)
  }

  /** The subject URL of each id. */
  function SubjectUrls(ids: seq<Option<string>>): (r: seq<string>)
    ensures |r| == |ids| && forall i :: 0 <= i < |ids| ==> r[i] == SubjectUrl(ids[i])
  {
    if |ids| == 0 then [] else [SubjectUrl(ids[0])] + SubjectUrls(ids[1..])
  }

  /** The heading links, or `None` as soon as one heading has no link (the lookup raises). */
  function AllLinks(headings: seq<Option<string>>): (r: Option<seq<string>>)
    ensures r.Some? <==> forall i :: 0 <= i < |headings| ==> headings[i].Some?
    ensures r.Some? ==> |r.value| == |headings|
                        && forall i :: 0 <= i < |headings| ==> r.value[i] == headings[i].value
  {
    if |headings| == 0 then Some([])
    else if headings[0].None? then None
    else
      match AllLinks(headings[1..])
      case None =>
        assert exists i :: 1 <= i < |headings| && headings[i].None? by {
          var i :| 0 <= i < |headings[1..]| && headings[1..][i].None?;
          assert headings[i + 1].None?;
        }
        None
      case Some(links) =>
        assert forall i :: 1 <= i < |headings| ==> headings[i] == headings[1..][i - 1];
        Some([headings[0].value] + links)
  }

  /**
   * `search_book`: the search page (`None` when the request raised) gives
   * one subject URL per heading; any exception, or no heading, gives `None`.
   */
  function SearchBook(page: Option<seq<Option<string>>>, unquote: string -> string): (r: Option<seq<string>>)
    ensures r.Some? ==> page.Some? && |r.value| == |page.value| > 0
    ensures page.Some? && |page.value| == 0 ==> r.None?
  {
    match page
    case None => None
    case Some(headings) =>
      match AllLinks(headings)
      case None => None
      case Some(hrefs) =>
        match ExtractAll(hrefs, link => ExtractSubjectId(link, unquote))
        case Err(_) => None
        case Ok(ids) => if |ids| > 0 then Some(SubjectUrls(ids)) else None
  }

  /** Every URL the search gives is a subject page URL. */
  lemma SearchGivesSubjectUrls(page: Option<seq<Option<string>>>, unquote: string -> string, i: nat)
    requires SearchBook(page, unquote).Some? && i < |SearchBook(page, unquote).value|
    ensures var u := SearchBook(page, unquote).value[i];
      StartsWith(u, SubjectPrefix) && EndsWith(u, "/")
  {
    var ids := ExtractAll(AllLinks(page.value).value, link => ExtractSubjectId(link, unquote)).value;
    assert SearchBook(page, unquote).value == SubjectUrls(ids);
    SubjectUrlShape(ids[i]);
  }

  /** A subject URL starts with the subject prefix and ends with a slash. */
  lemma SubjectUrlShape(id: Option<string>)
    ensures StartsWith(SubjectUrl(id), SubjectPrefix) && EndsWith(SubjectUrl(id), "/")
  {
    var tail := match id case Some(s) => s case None => "None";
    var u := SubjectPrefix + tail + "/";
    assert u[..|SubjectPrefix|] == SubjectPrefix;
    assert u[|u| - 1..] == "/";
  }

  /** A search page whose every heading links to a subject redirect yields those subjects, in order. */
  lemma SearchFindsSubjects(page: Option<seq<Option<string>>>, ids: seq<string>, encs: seq<string>,
                            rests: seq<string>, unquote: string -> string)
    requires |ids| > 0 && |encs| == |ids| && |rests| == |ids|
    requires page.Some? && |page.value| == |ids|
    requires forall i :: 0 <= i < |ids| ==> page.value[i] == Some(RedirectLink(encs[i], rests[i]))
    requires forall i :: 0 <= i < |ids| ==>
      '/' !in ids[i] && '?' !in ids[i] && '#' !in ids[i] && ';' !in ids[i]
      && '&' !in encs[i] && '#' !in encs[i] && '#' !in rests[i] && |encs[i]| > 0
      && DecodeComponent(encs[i], unquote) == SubjectUrl(Some(ids[i]))
    requires unquote("url") == "url"
    ensures var r := SearchBook(page, unquote);
      r.Some? && |r.value| == |ids| && forall i :: 0 <= i < |ids| ==> r.value[i] == SubjectPrefix + ids[i] + "/"
  {
    var hrefs := AllLinks(page.value).value;
    var extract := link => ExtractSubjectId(link, unquote);
    forall i | 0 <= i < |ids| ensures extract(hrefs[i]) == Ok(Some(ids[i])) {
      SubjectIdOfRedirect(ids[i], encs[i], rests[i], unquote);
    }
    var all := ExtractAll(hrefs, extract);
    assert all.Ok?;
    var urls := SubjectUrls(all.value);
    assert SearchBook(page, unquote) == Some(urls);
    forall i | 0 <= i < |ids| ensures urls[i] == SubjectPrefix + ids[i] + "/" {
      assert all.value[i] == Some(ids[i]);
    }
  }

  // ---------------------------------------------------------------------------
  // get_review_urls
  // ---------------------------------------------------------------------------

  /** Review-index page `k`: `reviews/`, then `?sort=hotest&start={20k}` for `k > 0`. */
  function ReviewPageUrl(bookUrl: string, k: nat): string {
    bookUrl + "reviews/" + PageQuery(k)
  }

  /** The query string of review-index page `k`. */
  function PageQuery(k: nat): string {
    if k > 0 then "?sort=hotest&start=" + NatToString(k * 20) else ""
  }

  /** Different page numbers give different query strings. */
  lemma PageQueriesDistinct(j: nat, k: nat)
    requires j != k
    ensures PageQuery(j) != PageQuery(k)
  {
    var q := "?sort=hotest&start=";
    if j > 0 && k > 0 && PageQuery(j) == PageQuery(k) {
      CancelPrefix(q, NatToString(j * 20), NatToString(k * 20));
      NatToStringInjective(j * 20, k * 20);
    }
  }

  /** Different page numbers give different URLs, so no page is requested twice. */
  lemma ReviewPagesDistinct(bookUrl: string, j: nat, k: nat)
    requires j != k
    ensures ReviewPageUrl(bookUrl, j) != ReviewPageUrl(bookUrl, k)
  {
    PageQueriesDistinct(j, k);
    if ReviewPageUrl(bookUrl, j) == ReviewPageUrl(bookUrl, k) {
      CancelPrefix(bookUrl + "reviews/", PageQuery(j), PageQuery(k));
    }
  }

  /** A review link as the pattern `https://book\.douban\.com/review/\d+/` matches it. */
  predicate IsReviewLink(u: string) {
    StartsWith(u, ReviewPrefix) && |u| >= |ReviewPrefix| + 2 && u[|u| - 1] == '/'
    && IsDigits(u[|ReviewPrefix|..|u| - 1])
  }

  /** The end of the run of digits starting at `from`. */
  function DigitRunEnd(s: string, from: nat): (j: nat)
    requires from <= |s|
    ensures from <= j <= |s|
    ensures j == |s| || !IsDigit(s[j])
    ensures forall i :: from <= i < j ==> IsDigit(s[i])
    decreases |s| - from
  {
    if from == |s| || !IsDigit(s[from]) then from else DigitRunEnd(s, from + 1)
  }

  /** The end of the match starting at `i`, if the pattern matches there. */
  function MatchAt(s: string, i: nat): (r: Option<nat>)
    requires i <= |s|
    ensures r.Some? ==> i < r.value <= |s| && IsReviewLink(s[i..r.value])
  {
    if !OccursAt(s, ReviewPrefix, i) then None
    else
      var j := DigitRunEnd(s, i + |ReviewPrefix|);
      if j > i + |ReviewPrefix| && j < |s| && s[j] == '/' then
        var u := s[i..j + 1];
        assert u[..|ReviewPrefix|] == s[i..i + |ReviewPrefix|];
        assert u[|ReviewPrefix|..|u| - 1] == s[i + |ReviewPrefix|..j];
        Some(j + 1)
      else None
  }

  /** `re.findall` of the review-link pattern: non-overlapping matches, left to right. */
  function FindReviewLinks(s: string, from: nat): (r: seq<string>)
    requires from <= |s|
    ensures |r| <= |s| - from
    decreases |s| - from
  {
    if from == |s| then []
    else
      match MatchAt(s, from)
      case Some(e) => [s[from..e]] + FindReviewLinks(s, e)
      case None => FindReviewLinks(s, from + 1)
  }

  /** Every link found matches the pattern and occurs in the page. */
  lemma {:induction false} FindReviewLinksSound(s: string, from: nat)
    requires from <= |s|
    ensures AllReviewLinks(FindReviewLinks(s, from))
    ensures forall k :: 0 <= k < |FindReviewLinks(s, from)| ==> Contains(s, FindReviewLinks(s, from)[k])
    decreases |s| - from
  {
    if from < |s| {
      var m := MatchAt(s, from);
      if m.Some? {
        var e := m.value;
        FindReviewLinksSound(s, e);
        assert OccursAt(s, s[from..e], from);
        var rest := FindReviewLinks(s, e);
        assert FindReviewLinks(s, from) == [s[from..e]] + rest;
        ReviewLinksConcat([s[from..e]], rest);
        forall k | 1 <= k < |rest| + 1 ensures Contains(s, ([s[from..e]] + rest)[k]) {
          assert ([s[from..e]] + rest)[k] == rest[k - 1];
        }
      } else {
        FindReviewLinksSound(s, from + 1);
        assert FindReviewLinks(s, from) == FindReviewLinks(s, from + 1);
      }
    }
  }

  /**
   * The reference for `re.findall`: the link matched at every position from
   * `from` on, in position order, without skipping over earlier matches.
   */
  function MatchesFrom(s: string, from: nat): seq<string>
    requires from <= |s|
    decreases |s| - from
  {
    if from == |s| then []
    else
      match MatchAt(s, from)
      case Some(e) => [s[from..e]] + MatchesFrom(s, from + 1)
      case None => MatchesFrom(s, from + 1)
  }

  /** Only the first character of the review prefix is an `h`. */
  lemma PrefixHasOneH()
    ensures ReviewPrefix[0] == 'h'
    ensures forall k :: 1 <= k < |ReviewPrefix| ==> ReviewPrefix[k] != 'h'
  {
  }

  /** No match starts inside another: a match is an `h` followed by no other `h`. */
  lemma NoMatchInside(s: string, i: nat, j: nat)
    requires i <= |s| && MatchAt(s, i).Some?
    requires i < j < MatchAt(s, i).value
    ensures MatchAt(s, j).None?
  {
    var e := MatchAt(s, i).value;
    var u := s[i..e];
    PrefixHasOneH();
    assert s[j] == u[j - i];
    if j - i < |ReviewPrefix| {
      assert u[j - i] == ReviewPrefix[j - i];
    } else if j - i < |u| - 1 {
      assert u[j - i] == u[|ReviewPrefix|..|u| - 1][j - i - |ReviewPrefix|];
    }
    MatchStartsWithH(s, j);
  }

  /** Every match starts with an `h`. */
  lemma MatchStartsWithH(s: string, j: nat)
    requires j <= |s|
    ensures MatchAt(s, j).Some? ==> j < |s| && s[j] == 'h'
  {
    PrefixHasOneH();
    if OccursAt(s, ReviewPrefix, j) {
      assert s[j..j + |ReviewPrefix|][0] == ReviewPrefix[0];
    }
  }

  /** Positions holding no match add nothing to the reference. */
  lemma {:induction false} MatchesSkip(s: string, j: nat, e: nat)
    requires j <= e <= |s|
    requires forall k :: j <= k < e ==> MatchAt(s, k).None?
    ensures MatchesFrom(s, j) == MatchesFrom(s, e)
    decreases e - j
  {
    if j < e {
      MatchesSkip(s, j + 1, e);
    }
  }

  /**
   * `re.findall` is complete: the left-to-right scan that resumes after
   * each match finds exactly the links matched at every position, in order.
   */
  lemma {:induction false} FindReviewLinksAllMatches(s: string, from: nat)
    requires from <= |s|
    ensures FindReviewLinks(s, from) == MatchesFrom(s, from)
    decreases |s| - from
  {
    if from < |s| {
      match MatchAt(s, from)
      case Some(e) =>
        forall k | from + 1 <= k < e ensures MatchAt(s, k).None? {
          NoMatchInside(s, from, k);
        }
        MatchesSkip(s, from + 1, e);
        FindReviewLinksAllMatches(s, e);
      case None =>
        FindReviewLinksAllMatches(s, from + 1);
    }
  }

  /** Every link matched at a reference position appears among the results. */
  lemma {:induction false} MatchesFromMember(s: string, from: nat, i: nat)
    requires from <= i <= |s| && MatchAt(s, i).Some?
    ensures s[i..MatchAt(s, i).value] in MatchesFrom(s, from)
    decreases i - from
  {
    if from < i {
      MatchesFromMember(s, from + 1, i);
    }
  }

  /** Every link on the page past `from` is found. */
  lemma FindReviewLinksComplete(s: string, from: nat, i: nat)
    requires from <= i <= |s| && MatchAt(s, i).Some?
    ensures s[i..MatchAt(s, i).value] in FindReviewLinks(s, from)
  {
    FindReviewLinksAllMatches(s, from);
    MatchesFromMember(s, from, i);
  }

  /** A page holding exactly one review link yields exactly that link. */
  lemma FindsLoneLink(d: string)
    requires IsDigits(d)
    ensures FindReviewLinks(ReviewPrefix + d + "/", 0) == [ReviewPrefix + d + "/"]
  {
    var s := ReviewPrefix + d + "/";
    assert OccursAt(s, ReviewPrefix, 0) by { assert s[..|ReviewPrefix|] == ReviewPrefix; }
    var p := |ReviewPrefix|;
    assert forall i :: p <= i < p + |d| ==> s[i] == d[i - p];
    assert DigitRunEnd(s, p) == p + |d| by {
      assert !IsDigit(s[p + |d|]);
    }
    assert s[0..|s|] == s;
  }

  /** The URL requested for review-index page `k`: the page behind the reader prefix. */
  function ReviewPageRequest(bookUrl: string, jina: string): nat -> string {
    (k: nat) => jina + ReviewPageUrl(bookUrl, k)
  }

  /** The page at which a run of `n` page requests first fails, or `n`. */
  function FirstFailedPage(request: nat -> string, fetch: string -> Option<string>, from: nat, n: nat): (k: nat)
    requires from <= n
    ensures from <= k <= n
    ensures k == n || fetch(request(k)).None?
    ensures forall j :: from <= j < k ==> fetch(request(j)).Some?
    decreases n - from
  {
    if from == n || fetch(request(from)).None? then from
    else FirstFailedPage(request, fetch, from + 1, n)
  }

  /** A page that is the first failure, or `n` when none failed, is what `FirstFailedPage` finds. */
  lemma FirstFailedPageIs(request: nat -> string, fetch: string -> Option<string>, n: nat, m: nat)
    requires m <= n
    requires forall j :: 0 <= j < m ==> fetch(request(j)).Some?
    requires m == n || fetch(request(m)).None?
    ensures FirstFailedPage(request, fetch, 0, n) == m
  {
  }

  /** The links found on page `k`. */
  function PageLinks(request: nat -> string, fetch: string -> Option<string>, k: nat): seq<string> {
    match fetch(request(k))
    case None => []
    case Some(text) => FindReviewLinks(text, 0)
  }

  /** The links of pages `0..m-1`, page after page, duplicates kept. */
  function LinksBefore(request: nat -> string, fetch: string -> Option<string>, m: nat): seq<string> {
    if m == 0 then [] else LinksBefore(request, fetch, m - 1) + PageLinks(request, fetch, m - 1)
  }

  predicate AllReviewLinks(xs: seq<string>) {
    forall k :: 0 <= k < |xs| ==> IsReviewLink(xs[k])
  }

  lemma ReviewLinksConcat(a: seq<string>, b: seq<string>)
    requires AllReviewLinks(a) && AllReviewLinks(b)
    ensures AllReviewLinks(a + b)
  {
    forall k | 0 <= k < |a + b| ensures IsReviewLink((a + b)[k]) {
      if k >= |a| { assert (a + b)[k] == b[k - |a|]; }
    }
  }

  /** Everything collected from the pages is a review link. */
  lemma {:induction false} LinksBeforeSound(request: nat -> string, fetch: string -> Option<string>, m: nat)
    ensures AllReviewLinks(LinksBefore(request, fetch, m))
  {
    if m > 0 {
      LinksBeforeSound(request, fetch, m - 1);
      var response := fetch(request(m - 1));
      if response.Some? {
        FindReviewLinksSound(response.value, 0);
        assert PageLinks(request, fetch, m - 1) == FindReviewLinks(response.value, 0);
      }
      ReviewLinksConcat(LinksBefore(request, fetch, m - 1), PageLinks(request, fetch, m - 1));
    }
  }

  /** The URLs of pages `0..m-1`, in the order they are requested. */
  function PageRequests(request: nat -> string, m: nat): (r: seq<string>)
    ensures |r| == m
  {
    if m == 0 then [] else PageRequests(request, m - 1) + [request(m - 1)]
  }

  /** Request `k` is for page `k`. */
  lemma {:induction false} PageRequestsIndex(request: nat -> string, m: nat, k: nat)
    requires k < m
    ensures PageRequests(request, m)[k] == request(k)
  {
    if k < m - 1 {
      PageRequestsIndex(request, m - 1, k);
    }
  }

  /** No review-index page is requested twice. */
  lemma ReviewRequestsDistinct(bookUrl: string, jina: string, m: nat, j: nat, k: nat)
    requires j < k < m
    ensures PageRequests(ReviewPageRequest(bookUrl, jina), m)[j] != PageRequests(ReviewPageRequest(bookUrl, jina), m)[k]
  {
    var request := ReviewPageRequest(bookUrl, jina);
    PageRequestsIndex(request, m, j);
    PageRequestsIndex(request, m, k);
    ReviewPagesDistinct(bookUrl, j, k);
    if request(j) == request(k) {
      CancelPrefix(jina, ReviewPageUrl(bookUrl, j), ReviewPageUrl(bookUrl, k));
    }
  }

  /** The number of pages a run of `n` requests asks for: up to and including the first failure. */
  function PagesAsked(request: nat -> string, fetch: string -> Option<string>, n: nat): nat {
    var f := FirstFailedPage(request, fetch, 0, n);
    if f < n then f + 1 else n
  }

  /**
   * The loop of `get_review_urls`: requests pages `0..n-1` in order and
   * collects their links; a failing request ends the loop with what was
   * collected. `requested` lists the URLs asked for.
   */
  method RequestPages(request: nat -> string, n: nat, fetch: string -> Option<string>)
    returns (reviews: seq<string>, requested: seq<string>)
    ensures reviews == LinksBefore(request, fetch, FirstFailedPage(request, fetch, 0, n))
    ensures requested == PageRequests(request, PagesAsked(request, fetch, n))
  {
    var offset: nat := 0;
    reviews := [];
    requested := [];
    while offset < n
      invariant offset <= n
      invariant forall j :: 0 <= j < offset ==> fetch(request(j)).Some?
      invariant reviews == LinksBefore(request, fetch, offset)
      invariant requested == PageRequests(request, offset)
    {
      var url := request(offset);
      requested := requested + [url];
      var response := fetch(url);
      if response.None? {
        FirstFailedPageIs(request, fetch, n, offset);
        return;
      }
      reviews := reviews + FindReviewLinks(response.value, 0);
      offset := offset + 1;
    }
    FirstFailedPageIs(request, fetch, n, n);
  }

  /** What `get_review_urls(book_url, range)` returns. */
  function CollectReviewUrls(bookUrl: string, range: int, jina: string, fetch: string -> Option<string>): seq<string> {
    var n := if range > 0 then range else 0;
    var request := ReviewPageRequest(bookUrl, jina);
    LinksBefore(request, fetch, FirstFailedPage(request, fetch, 0, n))
  }

  /** `get_review_urls(book_url, range)`: the review links and the page URLs it requested. */
  method GetReviewUrls(bookUrl: string, range: int, jina: string, fetch: string -> Option<string>)
    returns (reviews: seq<string>, requested: seq<string>)
    ensures reviews == CollectReviewUrls(bookUrl, range, jina, fetch)
    ensures requested == PageRequests(ReviewPageRequest(bookUrl, jina),
                                      PagesAsked(ReviewPageRequest(bookUrl, jina), fetch, if range > 0 then range else 0))
  {
    var n: nat := if range > 0 then range else 0;
    reviews, requested := RequestPages(ReviewPageRequest(bookUrl, jina), n, fetch);
  }

  // ---------------------------------------------------------------------------
  // get_reviews and the files a crawl writes
  // ---------------------------------------------------------------------------

  /** `get_reviews`: `[reader_url, text]` per URL; a failing request raises. */
  function GetReviews(urls: seq<string>, jina: string, fetch: string -> Option<string>): (r: Result<seq<(string, string)>>)
    ensures r.Ok? <==> forall i :: 0 <= i < |urls| ==> fetch(jina + urls[i]).Some?
    ensures r.Ok? ==> |r.value| == |urls| && forall i :: 0 <= i < |urls| ==>
              r.value[i] == (jina + urls[i], fetch(jina + urls[i]).value)
  {
    if |urls| == 0 then Ok([])
    else
      match fetch(jina + urls[0])
      case None => Err(FetchFailed)
      case Some(text) =>
        match GetReviews(urls[1..], jina, fetch)
        case Err(e) =>
          var i :| 0 <= i < |urls[1..]| && fetch(jina + urls[1..][i]).None?;
          assert fetch(jina + urls[i + 1]).None?;
          Err(e)
        case Ok(rest) =>
          assert forall i :: 1 <= i < |urls| ==> urls[i] == urls[1..][i - 1];
          Ok([(jina + urls[0], text)] + rest)
  }

  /** `url.split('/')[-2].split('?')[0]`; a URL without `/` has no `[-2]`. */
  function ReviewId(url: string): (r: Result<string>)
    ensures r.Ok? ==> '/' !in r.value && '?' !in r.value
  {
    var parts := Split(url, "/");
    if |parts| < 2 then Err(IndexError)
    else
      SplitCharPieces(url, '/');
      var seg := parts[|parts| - 2];
      SplitCharPieces(seg, '?');
      SplitPieces(seg, "?");
      var id := Split(seg, "?")[0];
      assert '/' !in id by {
        assert Join(Split(seg, "?"), "?") == seg;
        JoinHeadPrefix(Split(seg, "?"), "?");
        assert StartsWith(seg, id);
        forall i | 0 <= i < |id| ensures id[i] != '/' { assert id[i] == seg[i]; }
      }
      Ok(id)
  }

  /** The first piece of a join is a prefix of it. */
  lemma JoinHeadPrefix(parts: seq<string>, sep: string)
    requires |parts| >= 1
    ensures StartsWith(Join(parts, sep), parts[0])
  {
    if |parts| > 1 {
      assert Join(parts, sep) == parts[0] + (sep + Join(parts[1..], sep));
    }
  }

  /** The digits of a review link, between the review prefix and the closing `/`. */
  function LinkDigits(u: string): string {
    if |u| > |ReviewPrefix| then u[|ReviewPrefix|..|u| - 1] else ""
  }

  /** A review link is the review prefix, its digits and a slash. */
  lemma ReviewLinkShape(u: string)
    requires IsReviewLink(u)
    ensures IsDigits(LinkDigits(u)) && u == ReviewPrefix + LinkDigits(u) + "/"
  {
    assert u[..|ReviewPrefix|] == ReviewPrefix;
  }

  lemma DigitsHaveNoDelims(d: string)
    requires IsDigits(d)
    ensures '/' !in d && '?' !in d
  {
    forall i | 0 <= i < |d| ensures d[i] != '/' && d[i] != '?' { assert IsDigit(d[i]); }
  }

  /** A path ending in `/{d}/` has `d` as its second-to-last segment. */
  lemma LastTwoSegments(a: string, d: string)
    requires '/' !in d
    ensures var parts := Split(a + ['/'] + (d + ['/'] + ""), "/");
      |parts| >= 2 && parts[|parts| - 2] == d
  {
    SplitAppendChar(a, '/', d + ['/'] + "");
    SplitIdSlash(d);
  }

  lemma ReviewIdOfSegment(a: string, d: string)
    requires '/' !in d && '?' !in d
    ensures ReviewId(a + ['/'] + (d + ['/'] + "")) == Ok(d)
  {
    LastTwoSegments(a, d);
    SplitCharAbsent(d, '?');
  }

  /** A review link behind a reader prefix, cut at its last two slashes. */
  lemma ReviewRequestShape(jina: string, d: string)
    ensures jina + (ReviewPrefix + d + "/") == (jina + "https://book.douban.com/review") + ['/'] + (d + ['/'] + "")
  {
    assert ReviewPrefix == "https://book.douban.com/review" + ['/'];
  }

  /** A review fetched through any reader prefix is saved under its numeric id. */
  lemma ReviewIdOfLink(jina: string, u: string)
    requires IsReviewLink(u)
    ensures ReviewId(jina + u) == Ok(LinkDigits(u))
  {
    var d := LinkDigits(u);
    ReviewLinkShape(u);
    DigitsHaveNoDelims(d);
    ReviewRequestShape(jina, d);
    ReviewIdOfSegment(jina + "https://book.douban.com/review", d);
  }

  /** `f"{dir}/website/douban_{review_id}.txt"` */
  function ReviewFileName(dir: string, id: string): string {
    dir + "/website/douban_" + id + ".txt"
  }

  /** The files written for the fetched reviews, in order, and the error that stopped the writing. */
  function WriteReviews(dir: string, reviews: seq<(string, string)>): (r: (seq<(string, string)>, Option<PyError>))
    ensures |r.0| <= |reviews|
    ensures r.1.None? ==> |r.0| == |reviews|
    ensures forall i :: 0 <= i < |r.0| ==>
              ReviewId(reviews[i].0).Ok? && r.0[i] == (ReviewFileName(dir, ReviewId(reviews[i].0).value), reviews[i].1)
  {
    if |reviews| == 0 then ([], None)
    else
      match ReviewId(reviews[0].0)
      case Err(e) => ([], Some(e))
      case Ok(id) =>
        var (rest, err) := WriteReviews(dir, reviews[1..]);
        assert forall i :: 1 <= i < |reviews| ==> reviews[i] == reviews[1..][i - 1];
        ([(ReviewFileName(dir, id), reviews[0].1)] + rest, err)
  }

  // ---------------------------------------------------------------------------
  // crawl_book
  // ---------------------------------------------------------------------------

  /**
   * The observable effect of a crawl: whether the output directory was
   * created, whether the search ran, which detail pages were followed, the
   * files written in order, and the exception that ended it, if any.
   */
  datatype Crawl = Crawl(madeDir: bool, searched: bool, followed: seq<string>,
                         written: seq<(string, string)>, raised: Option<PyError>)

  /** The review URLs of several detail pages, page after page. */
  function ReviewUrlsOf(bookUrls: seq<string>, jina: string, fetch: string -> Option<string>): seq<string> {
    if |bookUrls| == 0 then []
    else CollectReviewUrls(bookUrls[0], DefaultPages, jina, fetch) + ReviewUrlsOf(bookUrls[1..], jina, fetch)
  }

  /** Every URL a crawl fetches is a review link. */
  lemma {:induction false} ReviewUrlsOfSound(bookUrls: seq<string>, jina: string, fetch: string -> Option<string>)
    ensures AllReviewLinks(ReviewUrlsOf(bookUrls, jina, fetch))
  {
    if |bookUrls| > 0 {
      var request := ReviewPageRequest(bookUrls[0], jina);
      LinksBeforeSound(request, fetch, FirstFailedPage(request, fetch, 0, DefaultPages));
      ReviewUrlsOfSound(bookUrls[1..], jina, fetch);
      ReviewLinksConcat(CollectReviewUrls(bookUrls[0], DefaultPages, jina, fetch), ReviewUrlsOf(bookUrls[1..], jina, fetch));
    }
  }

  /**
   * `crawl_book` of the packaged crawler: an existing `{book}/website`
   * directory ends it at once; otherwise the directory is created, the
   * book is searched, and the first `limit` results are followed.
   */
  function CrawlBook(book: string, limit: int, websiteExists: bool, search: Option<seq<string>>,
                     jina: string, fetch: string -> Option<string>): (c: Crawl)
    ensures websiteExists ==> !c.searched && !c.madeDir && c.written == []
    ensures !websiteExists ==> c.madeDir && c.searched
    ensures search.None? || search == Some([]) ==> c.written == [] && c.raised.None?
    ensures search.Some? && search.value != [] && !websiteExists ==> c.followed == SliceTo(search.value, limit)
  {
    if websiteExists then Crawl(false, false, [], [], None)
    else if search.None? || |search.value| == 0 then Crawl(true, true, [], [], None)
    else
      var followed := SliceTo(search.value, limit);
      var urls := ReviewUrlsOf(followed, jina, fetch);
      match GetReviews(urls, jina, fetch)
      case Err(e) => Crawl(true, true, followed, [], Some(e))
      case Ok(reviews) =>
        var (written, err) := WriteReviews(book, reviews);
        Crawl(true, true, followed, written, err)
  }

  /**
   * `crawl_book` of the stand-alone crawler: no existence guard; a failed
   * search ends it before any directory is made; otherwise only the first
   * result is followed, every review is fetched, and only then is the
   * missing directory made and the files written to `{output_dir}/website/`.
   * A failed review fetch raises before the directory is made.
   */
  function CrawlBookFirst(outputDir: string, dirExists: bool, search: Option<seq<string>>,
                          jina: string, fetch: string -> Option<string>): (c: Crawl)
    ensures c.searched
    ensures search.None? || search == Some([]) ==> !c.madeDir && c.written == [] && c.followed == []
    ensures search.Some? && search.value != [] ==> c.followed == [search.value[0]]
    ensures search.Some? && search.value != [] ==>
      (c.madeDir <==> !dirExists && GetReviews(CollectReviewUrls(search.value[0], DefaultPages, jina, fetch), jina, fetch).Ok?)
    ensures c.written != [] ==> dirExists || c.madeDir
  {
    if search.None? || |search.value| == 0 then Crawl(false, true, [], [], None)
    else
      var followed := [search.value[0]];
      var urls := CollectReviewUrls(search.value[0], DefaultPages, jina, fetch);
      match GetReviews(urls, jina, fetch)
      case Err(e) => Crawl(false, true, followed, [], Some(e))
      case Ok(reviews) =>
        var (written, err) := WriteReviews(outputDir, reviews);
        Crawl(!dirExists, true, followed, written, err)
  }

  /** Fetching and writing review links stores each under its digits. */
  lemma WriteReviewLinks(dir: string, jina: string, urls: seq<string>, fetch: string -> Option<string>)
    requires forall i :: 0 <= i < |urls| ==> IsReviewLink(urls[i])
    requires forall i :: 0 <= i < |urls| ==> fetch(jina + urls[i]).Some?
    ensures GetReviews(urls, jina, fetch).Ok?
    ensures var w := WriteReviews(dir, GetReviews(urls, jina, fetch).value);
      w.1.None? && |w.0| == |urls|
      && forall i :: 0 <= i < |urls| ==> w.0[i] == (ReviewFileName(dir, LinkDigits(urls[i])), fetch(jina + urls[i]).value)
  {
    var reviews := GetReviews(urls, jina, fetch).value;
    forall i | 0 <= i < |urls| ensures ReviewId(reviews[i].0) == Ok(LinkDigits(urls[i])) {
      ReviewIdOfLink(jina, urls[i]);
    }
    WriteReviewsAll(dir, reviews);
  }

  /**
   * When every review fetch succeeds, a crawl writes one file per review
   * URL, each named `douban_{digits}.txt` and holding the fetched text.
   */
  lemma CrawlWritesNumberedFiles(book: string, limit: int, search: Option<seq<string>>, urls: seq<string>,
                                 jina: string, fetch: string -> Option<string>)
    requires search.Some? && search.value != []
    requires urls == ReviewUrlsOf(SliceTo(search.value, limit), jina, fetch)
    requires forall i :: 0 <= i < |urls| ==> fetch(jina + urls[i]).Some?
    ensures var c := CrawlBook(book, limit, false, search, jina, fetch);
      c.raised.None? && |c.written| == |urls|
      && forall i :: 0 <= i < |urls| ==>
           c.written[i] == (ReviewFileName(book, LinkDigits(urls[i])), fetch(jina + urls[i]).value)
           && IsDigits(LinkDigits(urls[i]))
  {
    ReviewUrlsOfSound(SliceTo(search.value, limit), jina, fetch);
    WriteReviewLinks(book, jina, urls, fetch);
    forall i | 0 <= i < |urls| ensures IsDigits(LinkDigits(urls[i])) {
      ReviewLinkShape(urls[i]);
    }
  }

  /** When every id can be taken, every review is written. */
  lemma {:induction false} WriteReviewsAll(dir: string, reviews: seq<(string, string)>)
    requires forall i :: 0 <= i < |reviews| ==> ReviewId(reviews[i].0).Ok?
    ensures WriteReviews(dir, reviews).1.None? && |WriteReviews(dir, reviews).0| == |reviews|
  {
    if |reviews| > 0 {
      assert forall i :: 1 <= i < |reviews| ==> reviews[i] == reviews[1..][i - 1];
      WriteReviewsAll(dir, reviews[1..]);
    }
  }

  /** Writing stops only at a review whose id cannot be taken. */
  lemma WriteReviewsStops(dir: string, reviews: seq<(string, string)>)
    ensures var (w, e) := WriteReviews(dir, reviews);
      e.Some? ==> |w| < |reviews| && ReviewId(reviews[|w|].0).Err?
  {
    if |reviews| > 0 && ReviewId(reviews[0].0).Ok? {
      WriteReviewsStops(dir, reviews[1..]);
    }
  }
}
