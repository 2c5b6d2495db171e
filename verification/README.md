# DeepReader, modelled in Dafny

DeepReader turns a book title into a reading companion in three stages:

- **Collect.** It crawls the book's Douban reviews and related YouTube and bilibili videos.
- **Process.** It cleans the reviews and transcripts, has a language model split each one into story, feeling, evaluation and thinking parts, and folds the parts into a report that becomes the book's prompt.
- **Chat.** Streamlit pages let a reader talk about the book with one friendly persona, or with a group of three generated personas. Other pages manage the shelf of book prompts and keep reading notes.

This project models the deterministic core of every stage as pure functions over immutable data, and proves properties of them. Each operation is modelled as the code is written. Where the code evidently does not do what was meant, a corrected variant stands next to it, and the section Findings names both.

It covers:

- identifier and URL derivation: Douban subject and review ids, review-index pagination, YouTube and bilibili video ids;
- text normalisation: the Douban review cleaner, transcript-cleaner file selection and naming, duration parsing, title tag stripping, de-duplication and the top-ten cut of search hits, the subtitle line filters, and the cookie-file converter;
- record building: the parsed-review rows and the report prompts;
- persona and prompt selection: the MBTI and attitude draw, the style prompt, and the rephrase prompt;
- the pages' state: book selection, the suggested-question pool, the chat logs and their fan-out to the personas, the bookmark card's SVG extraction, the session helpers, the book manager's forms, the bookshelf and the notes list.

How the model stands in for the outside world:

- Every call to a language model is a function parameter from prompt or chat history to text. Nothing is assumed about what it returns.
- The web is a parameter `fetch`; a request that raised gives `None`. The external download and transcription tools are parameters too.
- The filesystem is a directory listing, a map from path to text, or an existence predicate.
- The clock's readings and every random draw (`random.choice`, `random.shuffle`, `random.sample`, `random.randint`) are values passed in.
- Percent-decoding (section 2.1 of RFC 3986) is the parameter `unquote`.
- A Python exception is an `Err` of the `Outcomes.Result` type, naming the exception class.

The modules follow the program:

| module | models |
|---|---|
| `Outcomes` | `Option`, `Result` and the Python exception classes |
| `Strings` | the Python `str` operations the code relies on |
| `Sorting` | Python's `sorted` |
| `Paths` | `os.path.join` and `os.path.splitext` |
| `Urls` | `urlparse` and `parse_qs` |
| `DoubanCrawler` | `reader/douban_crawler.py` and `douban_crawler.py` |
| `VideoCrawler` | `reader/video_crawler.py` |
| `Bilibili`, `Markup`, `Subtitles` | `reader/bilibili_auto_crawler.py` |
| `Cleaning` | `douban_cleaning.py`, `reader/video_cleaning.py`, `video_cleaning.py` |
| `ParseReview` | `reader/parse_review.py` |
| `Report` | `reader/report.py` |
| `Cookies` | `tmp.py` |
| `WebUtils` | `website/utils.py` |
| `Personas` | `website/prompt.py` (the later copy, lines 466-909) and `website-en/prompt.py` |
| `Conversation` | what the chat pages share: book list, question parsing, question pool |
| `Reader` | `website/main.py` and `website-en/chatbot.py` |
| `Chat` | `website/chatbot.py` |
| `BookManager` | `website/book_manager.py` |
| `Bookshelf` | `website/bookshelf.py` |
| `Notes` | `website/page2.py` |

Where the code and its description disagree, the model follows the code:

- The bookshelf lists a book by `Path.stem`, so a hidden file `.md` is listed as `.md`, and its card then fails to open. The chat pages cut three characters off the same name and list the empty name instead. See `Bookshelf.HiddenFileListedDifferently` and `Bookshelf.HiddenFileCardFails`.
- `create_book_prompt` uses `final_report.md` whenever that file exists, even when it is empty. The basic prompt replaces only an empty fallback report, and the search stops at the first fallback that exists. See `BookManager.EmptyOnlyFromFinalReport` and `BookManager.FallbackOrder`.

## Model

| member | source | states |
|---|---|---|
| Strings.IndexOf | website-en/chatbot.py:286 | the first occurrence of the pattern, found exactly when the pattern occurs, with no occurrence before it |
| Strings.LastIndexOfChar | douban_cleaning.py:8 | the last position holding the character, with none after it; none when the character is absent |
| Strings.SplitOnce | tmp.py:19 | `split(sep, 1)` makes one cut exactly when the separator occurs: the part before it holds no separator, and the two parts with the separator give back the text |
| Strings.SplitHead | reader/parse_review.py:86 | the first piece of a split is the text before the first separator |
| Strings.SplitSecond | website-en/chatbot.py:286 | with the separator present there is a second piece: what follows the first separator, up to the next |
| Strings.SplitPieces | website-en/chatbot.py:169 | no piece of a split holds the separator, and joining the pieces with it gives back the text |
| Strings.SplitJoin | reader/bilibili_auto_crawler.py:296-306 | splitting a join gives back the pieces when no piece hides a separator |
| Strings.JoinPrefixOfSplit | website/bookshelf.py:122-123 | rejoining the first pieces of a split gives a beginning of the text |
| Strings.ReplaceAbsent | website-en/chatbot.py:292 | replacing a pattern that does not occur changes nothing |
| Strings.ReplaceIntroduces | website-en/chatbot.py:292 | when the pattern occurs the result holds the replacement |
| Strings.ReplaceTrailing | reader/video_cleaning.py:28 | for a pattern without a border, such as `.txt`, a trailing occurrence is always replaced |
| Strings.ReplaceSingle | reader/parse_review.py:57-63 | a single placeholder, with none around it, is replaced in place |
| Strings.ReplaceChar | reader/douban_crawler.py:17 | replacing one character by one character, as `parse_qs` does with `+`, maps each character |
| Strings.LStrip | website-en/chatbot.py:171 | `lstrip` drops the leading whitespace and nothing else |
| Strings.RStrip | website/utils.py:95 | `rstrip` drops the trailing whitespace and nothing else |
| Strings.StripShape | website-en/chatbot.py:171 | `strip` gives a slice of its input with non-space ends, cutting away only whitespace |
| Strings.StripIdempotent | website-en/chatbot.py:170-171 | stripping twice is stripping once |
| Strings.StripEmpty | website-en/chatbot.py:170 | a text is blank exactly when it is all whitespace |
| Strings.NatToStringValue | website/page2.py:31 | the decimal spelling of a number has that number's value |
| Strings.NatToStringInjective | website/page2.py:31 | different numbers have different spellings |
| Strings.ParseNatToString | reader/bilibili_auto_crawler.py:135-137 | `int` reads back the decimal spelling of a number |
| Strings.WordEnd | website/utils.py:87 | a word runs from its start to the next whitespace or the end |
| Strings.WordsAreWords | website/utils.py:87 | every piece `split()` gives is a non-empty run of non-whitespace |
| Strings.PySlices | reader/bilibili_auto_crawler.py:64 | `s[:n]` and `s[n:]` give `s` back together; a bound from 0 to `len(s)` cuts there, a larger one leaves everything in the first part, and `-k` cuts `k` from the end, or at the start when `k` exceeds the length |
| Sorting.LexTotal | website/utils.py:82 | any two strings are ordered one way or the other |
| Sorting.LexTrans | website/utils.py:82 | the string order is transitive |
| Sorting.LexAntisym | website/utils.py:82 | strings ordered both ways are equal |
| Sorting.SortStrings | website/bookshelf.py:27 | `sorted` gives an ordered rearrangement of its input |
| Sorting.SortedUnique | website/utils.py:82 | there is only one ordered rearrangement of a collection of strings |
| Sorting.SortDesc | reader/bilibili_auto_crawler.py:61 | sorting by key in reverse gives a rearrangement with non-increasing keys |
| Sorting.SortDescStable | reader/bilibili_auto_crawler.py:61 | elements with equal keys keep their input order |
| Paths.JoinExtension | reader/video_crawler.py:60-61 | joining a relative name and then adding an extension is joining the extended name |
| Paths.Splitext | douban_cleaning.py:8 | `splitext` cuts the path into two parts that give it back; a non-empty extension is a `.` followed by no `.` or `/`, with a non-dot before it in the last component; the extension is empty exactly when no `.` of the last component has a non-dot before it in that component |
| Paths.SplitextOf | douban_cleaning.py:8 | the extension of `dir/stem.ext` is `.ext` for a dot-free stem and extension |
| Urls.UrlSplit | reader/video_crawler.py:88 | `urlsplit` never fills the path-parameter field; its only error is `ValueError`, which it raises for a network location with an unbalanced bracket; the path holds no `?` or `#`, and the query no `#` |
| Urls.SplitParams | reader/video_crawler.py:88 | `;parameters` split off the last path segment reassemble to the path, and are empty when nothing is cut |
| Urls.SplitUnparse | reader/video_crawler.py:88 | `urlsplit` gives back every well-formed record from the URL written for it |
| Urls.ParseUnparse | reader/douban_crawler.py:14 | `urlparse` gives back every well-formed record from the URL written for it |
| Urls.Group | reader/douban_crawler.py:17 | `parse_qs` maps a name to all its values in query order, and exactly the names that occur become keys |
| Urls.ParseQsKeys | reader/douban_crawler.py:17 | a name is a key of `parse_qs` exactly when some kept field carries it |
| Urls.LeadingField | reader/douban_crawler.py:17-20 | a query opening with `name=value` gives that decoded value first for the decoded name |
| Urls.SoleField | reader/video_crawler.py:94 | a query that is a single `name=value` field parses to exactly one key with one value |
| Urls.GroupOne | reader/douban_crawler.py:17 | one pair groups into a one-entry map |
| DoubanCrawler.SecondToLastSegment | reader/douban_crawler.py:26-28 | a segment is given exactly when the path splits on `/` into more than two pieces; it is the `[-2]` piece, and it holds no `/` |
| DoubanCrawler.SecondToLastSegmentOf | reader/douban_crawler.py:26-28 | any path ending `/{seg}/{last}` with `seg` and `last` free of `/` gives `seg`, whatever comes before |
| DoubanCrawler.SecondToLastSegmentNone | reader/douban_crawler.py:28 | a path with no `/` or one `/` gives `None` |
| DoubanCrawler.ExtractSubjectId | reader/douban_crawler.py:12-31 | a link `urlparse` rejects raises; a missing or empty `url` parameter gives `None` without raising; an id found contains no `/` (the same function is at douban_crawler.py:12-31) |
| DoubanCrawler.SubjectPathSegments | reader/douban_crawler.py:26-28 | the path `/subject/{id}/` of a subject page yields exactly `id` |
| DoubanCrawler.RedirectParses | reader/douban_crawler.py:14-17 | `urlparse` takes a search redirect link `https://www.douban.com/link2/?url=…&…` apart into scheme, host, path and query |
| DoubanCrawler.SubjectParses | reader/douban_crawler.py:24-26 | `urlparse` of a subject URL gives host `book.douban.com` and path `/subject/{id}/` |
| DoubanCrawler.SubjectUrlUnparses | reader/douban_crawler.py:57 | the subject URL the search formats is the unparsing of the subject record, so parse and format agree |
| DoubanCrawler.RedirectTarget | reader/douban_crawler.py:17-20 | the first `url` value of a redirect link's query is the percent-decoding of its encoded target |
| DoubanCrawler.SubjectIdOfRedirect | reader/douban_crawler.py:12-31 | round trip: a redirect link whose `url` parameter decodes to `https://book.douban.com/subject/{id}/` yields `id` |
| DoubanCrawler.ExtractAll | reader/douban_crawler.py:51-56 | one id per heading link, in order, and an error exactly when extracting some link raises |
| DoubanCrawler.SubjectUrls | reader/douban_crawler.py:57 | one subject URL per id, position by position |
| DoubanCrawler.AllLinks | reader/douban_crawler.py:51-52 | the links are returned exactly when every heading has one (the `['href']` lookup raises otherwise), position by position |
| DoubanCrawler.SearchBook | reader/douban_crawler.py:42-65 | a result is one URL per heading and never empty; a page without headings, or a failed request, gives `None` |
| DoubanCrawler.SearchGivesSubjectUrls | reader/douban_crawler.py:57 | every URL the search returns starts with `https://book.douban.com/subject/` and ends with `/` |
| DoubanCrawler.SubjectUrlShape | reader/douban_crawler.py:57 | a subject URL, even for a `None` id, has the subject prefix and a closing slash |
| DoubanCrawler.SearchFindsSubjects | reader/douban_crawler.py:50-60 | a search page whose headings link to subject redirects yields exactly those subject URLs, in heading order |
| DoubanCrawler.PageQueriesDistinct | reader/douban_crawler.py:100-102 | different page numbers give different query strings (`reviews/` alone only for page 0) |
| DoubanCrawler.ReviewPagesDistinct | reader/douban_crawler.py:100-102 | different page numbers give different review-index URLs |
| DoubanCrawler.DigitRunEnd | reader/douban_crawler.py:108 | the end of the maximal run of digits that `\d+` consumes |
| DoubanCrawler.MatchAt | reader/douban_crawler.py:108-109 | a match found at a position is a review link of the pattern `https://book\.douban\.com/review/\d+/` |
| DoubanCrawler.FindReviewLinks | reader/douban_crawler.py:108-109 | `re.findall` finds at most as many links as there are characters left; its full meaning is the reference stated in `FindReviewLinksAllMatches` |
| DoubanCrawler.FindReviewLinksSound | reader/douban_crawler.py:107-109 | every link found matches the review-link pattern and occurs in the page |
| DoubanCrawler.NoMatchInside | reader/douban_crawler.py:108 | no match of the pattern starts inside another, as only the first character of a link is an `h` |
| DoubanCrawler.FindReviewLinksAllMatches | reader/douban_crawler.py:108-109 | the left-to-right scan that resumes after each match returns exactly the links matched at every position, in position order |
| DoubanCrawler.FindReviewLinksComplete | reader/douban_crawler.py:108-109 | completeness: every link the pattern matches on the page is among the results |
| DoubanCrawler.FindsLoneLink | reader/douban_crawler.py:107-109 | a page that is exactly one review link yields exactly that link |
| DoubanCrawler.FirstFailedPage | reader/douban_crawler.py:98-113 | the page at which the loop stops: every earlier request succeeded and this one failed, or all `range` pages were asked |
| DoubanCrawler.FirstFailedPageIs | reader/douban_crawler.py:98-113 | the stopping page is unique: any page with only successes before it and a failure at it is the one found |
| DoubanCrawler.LinksBeforeSound | reader/douban_crawler.py:107-110 | everything the loop collects is a review link |
| DoubanCrawler.PageRequests | reader/douban_crawler.py:98-105 | the loop asks for one URL per page it reaches |
| DoubanCrawler.PageRequestsIndex | reader/douban_crawler.py:98-105 | the `k`-th request is for review-index page `k`, so pages are asked in order 0, 1, 2, … |
| DoubanCrawler.ReviewRequestsDistinct | reader/douban_crawler.py:98-105 | no review-index page is requested twice within one call |
| DoubanCrawler.RequestPages | reader/douban_crawler.py:94-115 | the loop returns the links of the pages before the first failure, page after page with duplicates kept, and asks for pages up to and including that failure |
| DoubanCrawler.GetReviewUrls | reader/douban_crawler.py:94-115 | `get_review_urls(book_url, range)` with a reader prefix: the partial list on a failing page, and the requests made, for any `range` (a non-positive one asks for nothing) |
| DoubanCrawler.GetReviews | reader/douban_crawler.py:117-128 | one `[reader_url, text]` pair per URL in order; it raises exactly when some request fails |
| DoubanCrawler.ReviewId | reader/douban_crawler.py:158-159 | the id `url.split('/')[-2].split('?')[0]` holds neither `/` nor `?`; a URL without `/` raises |
| DoubanCrawler.ReviewLinkShape | reader/douban_crawler.py:108 | a review link is the review prefix, a digit run and a slash |
| DoubanCrawler.ReviewIdOfLink | reader/douban_crawler.py:155-161 | whatever the reader prefix, a fetched review link is saved under its digit run |
| DoubanCrawler.WriteReviews | reader/douban_crawler.py:155-162 | the files written are `{dir}/website/douban_{id}.txt` holding the review text, in review order, stopping only at a failure |
| DoubanCrawler.WriteReviewsAll | reader/douban_crawler.py:155-162 | when every id can be taken, one file is written per review |
| DoubanCrawler.WriteReviewsStops | reader/douban_crawler.py:155-162 | writing stops only at the first review whose id cannot be taken |
| DoubanCrawler.ReviewUrlsOfSound | reader/douban_crawler.py:144-146 | every URL a crawl fetches is a review link |
| DoubanCrawler.CrawlBook | reader/douban_crawler.py:130-162 | an existing `{book}/website` returns before any search or write; otherwise the directory is made, the book is searched, and only the first `limit` results are followed; a failed or empty search writes nothing |
| DoubanCrawler.CrawlBookFirst | douban_crawler.py:129-154 | the stand-alone crawl always searches; a failed search makes no directory and writes nothing; otherwise only the first result is followed, and the directory is made exactly when it is missing and every review was fetched, since a failed fetch raises before `makedirs`; files are written only into an existing or new directory |
| DoubanCrawler.WriteReviewLinks | reader/douban_crawler.py:149-162 | fetching and writing review links stores each one under its digits with the fetched text |
| DoubanCrawler.CrawlWritesNumberedFiles | reader/douban_crawler.py:130-162 | when every review fetch succeeds, a crawl writes one `douban_{digits}.txt` per review URL of the followed results, in order, holding the fetched text |
| VideoCrawler.TrimSlash | reader/video_crawler.py:98-100 | at most one trailing `/` is removed, nothing else changes |
| VideoCrawler.LastSegment | reader/video_crawler.py:101 | the last `/`-piece contains no `/` |
| VideoCrawler.ExtractVideoId | reader/video_crawler.py:86-104 | a URL `urlparse` rejects raises `ValueError`; a host matching neither platform gives `None`; a YouTube id starts with `ytb_`; a bilibili id starts with `bilibili_` and its rest holds no `/`; YouTube is tested first |
| VideoCrawler.ShortLinkId | reader/video_crawler.py:91-92 | `https://youtu.be/{id}` gives `ytb_{id}` |
| VideoCrawler.WatchQueryValue | reader/video_crawler.py:94 | the first `v` value of a watch query starting `v={enc}` is the decoded `enc` |
| VideoCrawler.WatchLinkId | reader/video_crawler.py:90-94 | a watch link on a YouTube host gives `ytb_` and its decoded `v` parameter |
| VideoCrawler.WatchWithoutV | reader/video_crawler.py:93-94 | a watch link whose query has no `v` raises `KeyError` |
| VideoCrawler.BilibiliBranch | reader/video_crawler.py:96-102 | a bilibili link with a non-empty path gives `bilibili_` and the last segment of the path less one trailing slash |
| VideoCrawler.TrimOneSlash | reader/video_crawler.py:98-100 | a path with one trailing slash added, or none, trims back to itself |
| VideoCrawler.BilibiliLinkId | reader/video_crawler.py:96-102 | `{host}{p}/{id}` and `{host}{p}/{id}/` both give `bilibili_{id}` |
| VideoCrawler.PathsShareStem | reader/video_crawler.py:60-61 | the audio and transcript paths are the same stem `{base}/{id}` with `.mp3` and `.txt` |
| VideoCrawler.ProcessId | reader/video_crawler.py:60-83 | downloads exactly when the audio is missing; transcribes exactly when the audio exists or the download succeeded and the transcript is missing; writes exactly a non-empty transcription to the `.txt` path |
| VideoCrawler.ProcessVideoUrl | reader/video_crawler.py:53-83 | an extraction that raises propagates; no id does nothing; an id runs the download and transcription steps |
| VideoCrawler.IdsAreRelative | reader/video_crawler.py:55-61 | every extracted id is non-empty and not absolute, so `os.path.join` keeps the video directory |
| VideoCrawler.RerunIsIdle | reader/video_crawler.py:63-74 | rerunning a video whose audio and transcript both exist does nothing |
| Bilibili.DurationWith | reader/bilibili_auto_crawler.py:128-144 | an empty text, or one with neither two nor three `:`-parts, gives 0 |
| Bilibili.DurationBadPart | reader/bilibili_auto_crawler.py:134-144 | a part that `int` rejects makes the whole duration 0 |
| Bilibili.DurationTwo | reader/bilibili_auto_crawler.py:135-137 | two integer parts give `M*60+S` |
| Bilibili.DurationThree | reader/bilibili_auto_crawler.py:138-140 | three integer parts give `H*3600+M*60+S` |
| Bilibili.MinutesSecondsRoundTrip | reader/bilibili_auto_crawler.py:134-137 | round trip: `M:S` printed in decimal parses back to the total seconds |
| Bilibili.HoursMinutesSecondsRoundTrip | reader/bilibili_auto_crawler.py:134-140 | round trip: `H:M:S` printed in decimal parses back to the total seconds |
| Bilibili.CleanTitle | reader/bilibili_auto_crawler.py:169-171 | the cleaned title contains no `<…>` span, and a title without one is unchanged |
| Bilibili.ParseVideoInfo | reader/bilibili_auto_crawler.py:100-122 | the record keeps the hit's `bvid`, its URL is the video-page prefix plus the `bvid`, its duration is the parsed duration and its title is tag-free |
| Bilibili.KeywordVideos | reader/bilibili_auto_crawler.py:88-94 | at most one video per hit, each at least `min_duration` long |
| Bilibili.KeywordVideosKeeps | reader/bilibili_auto_crawler.py:89-92 | every hit long enough is kept |
| Bilibili.KeywordVideosFromHits | reader/bilibili_auto_crawler.py:89-92 | every kept video is the record of some hit |
| Bilibili.CollectVideos | reader/bilibili_auto_crawler.py:48-57 | everything collected over the keywords is long enough |
| Bilibili.FirstPositions | reader/bilibili_auto_crawler.py:173-184 | the ascending list of exactly the positions holding the first occurrence of a non-empty `bvid` |
| Bilibili.Pick | reader/bilibili_auto_crawler.py:182 | the videos at the chosen positions, in order |
| Bilibili.DeduplicateVideos | reader/bilibili_auto_crawler.py:173-184 | the one-pass loop with a seen-set returns the first occurrence of every non-empty `bvid`, in input order |
| Bilibili.DedupDistinct | reader/bilibili_auto_crawler.py:179-182 | the kept `bvid`s are non-empty and pairwise distinct |
| Bilibili.FirstWith | reader/bilibili_auto_crawler.py:180 | every non-empty `bvid` has a first occurrence at or before any occurrence |
| Bilibili.DedupCovers | reader/bilibili_auto_crawler.py:178-182 | no non-empty `bvid` of the input is lost |
| Bilibili.DedupOrder | reader/bilibili_auto_crawler.py:178-184 | kept video `k` is the input video at the `k`-th first-occurrence position, so input order is kept |
| Bilibili.AllFirstPositions | reader/bilibili_auto_crawler.py:178-184 | when every position is a first occurrence, all positions are kept |
| Bilibili.DedupDistinctInput | reader/bilibili_auto_crawler.py:173-184 | an input without empty or repeated `bvid`s passes through unchanged |
| Bilibili.SearchVideos | reader/bilibili_auto_crawler.py:59-64 | ten of the de-duplicated candidates, or all of them when there are fewer, each drawn from the candidates, by play count non-increasing |
| Bilibili.CandidatesLongEnough | reader/bilibili_auto_crawler.py:50-60 | every de-duplicated candidate is at least `min_duration` long |
| Bilibili.SearchResultsQualify | reader/bilibili_auto_crawler.py:26-64 | the returned videos are long enough and have distinct `bvid`s |
| Bilibili.SearchKeepsMostPlayed | reader/bilibili_auto_crawler.py:61-64 | the candidates left out are exactly those ranked from the eleventh on, and none of them has more plays than any video returned |
| Bilibili.SearchStable | reader/bilibili_auto_crawler.py:61 | videos with equal play counts keep their de-duplicated order (the sort is stable) |
| Bilibili.DownloadVideos | reader/bilibili_auto_crawler.py:186-240 | as written: an empty list makes no directory and returns nothing; otherwise `{book}/video` is made and exactly `videos[:max_videos]` is tried, in order, with at most one info file each |
| Bilibili.InfoFileNameInjective | reader/bilibili_auto_crawler.py:228 | info files of different positions have different names |
| Bilibili.InfoFilesExactly | reader/bilibili_auto_crawler.py:220-232 | an info file is written for a position exactly when its video is recorded: its try block does not raise and, in the corrected variant, its download returned 0 |
| Bilibili.InfoFilesAfter | reader/bilibili_auto_crawler.py:220-232 | earlier positions get no info file from later ones |
| Bilibili.DownloadInfoFiles | reader/bilibili_auto_crawler.py:220-232 | as written, `video_{k+1}_info.json` is written exactly for the attempted videos whose try block does not raise |
| Bilibili.AsWrittenRecordsFailedDownload | reader/bilibili_auto_crawler.py:215-229 | as written, a video whose download failed with a non-zero return code under `ignoreerrors`, without raising, still gets its info file and is returned as downloaded |
| Bilibili.CorrectedRecordsDownloads | reader/bilibili_auto_crawler.py:215-232 | corrected, the same videos are tried, and an info file is written exactly when the try block does not raise and the download returned 0 |
| Markup.NextGt | reader/bilibili_auto_crawler.py:171 | the first `>` at or after a position, or none when the rest holds no `>` |
| Markup.TagFreeHasNoSpan | reader/bilibili_auto_crawler.py:171 | a tag-free text has no `<`, non-empty run without `>`, `>` span |
| Markup.NextGtFirst | reader/bilibili_auto_crawler.py:171 | the `>` found is the first one, as `[^>]+` requires |
| Markup.StripTagsChars | reader/bilibili_auto_crawler.py:171 | every output character comes from the input |
| Markup.StripTagsAbsent | reader/bilibili_auto_crawler.py:171 | a character absent from the input is absent from the output |
| Markup.StripTagsTagFree | reader/bilibili_auto_crawler.py:169-171 | the output contains no tag span |
| Markup.StripTagsFixed | reader/bilibili_auto_crawler.py:169-171 | a text without tag spans is left unchanged |
| Markup.StripTagsIdempotent | reader/bilibili_auto_crawler.py:169-171 | stripping twice is stripping once |
| Markup.StripLeadingTag | reader/bilibili_auto_crawler.py:171 | a leading `<w>` is removed and the rest is stripped on its own |
| Subtitles.KeptFrom | reader/bilibili_auto_crawler.py:298-305 | every output line is the picked form of some input line |
| Subtitles.KeptComplete | reader/bilibili_auto_crawler.py:298-305 | every accepted input line gives an output line |
| Subtitles.KeptNewlineFree | reader/bilibili_auto_crawler.py:298-306 | lines split on `\n` give output lines without `\n` |
| Subtitles.FilteredLines | reader/bilibili_auto_crawler.py:306 | the `\n`-joined output splits back into exactly the kept lines, and is empty when nothing is kept |
| Subtitles.ExtractTextFromSubtitle | reader/bilibili_auto_crawler.py:286-306 | `.vtt` takes the VTT filter, else `.srt` the SRT filter, else the generic filter |
| Subtitles.PicksNewlineFree | reader/bilibili_auto_crawler.py:301-330 | none of the three filters adds a newline to a line |
| Subtitles.SrtLines | reader/bilibili_auto_crawler.py:323-333 | the SRT output lines are exactly the stripped lines that are non-empty, not all digits and without `-->`, in order |
| Subtitles.VttLines | reader/bilibili_auto_crawler.py:308-321 | the VTT output lines are the tag-stripped forms of the stripped lines that are not blank, `WEBVTT`/`NOTE` headed or timings, each non-empty and tag-free |
| Subtitles.OtherLines | reader/bilibili_auto_crawler.py:296-306 | other formats keep exactly the stripped lines that are non-empty, not headed `WEBVTT`, `NOTE` or `{`, without `-->` and not all digits |
| Subtitles.ExtractSubtitlesText | reader/bilibili_auto_crawler.py:244-284 | a missing `{book}/video` gives `""` and saves nothing; `all_subtitles.txt` is written exactly when some section is non-empty, and the saved and returned text is the sections joined by `\n`; otherwise `""` is returned |
| Subtitles.JoinContainsPart | reader/bilibili_auto_crawler.py:280 | every part of a `\n`-join occurs in the joined text |
| Subtitles.SubtitlesTextHoldsEverySection | reader/bilibili_auto_crawler.py:262-282 | for every subtitle file with some text, the file is saved and its text holds that file's header and extracted text |
| Subtitles.SectionsExactly | reader/bilibili_auto_crawler.py:262-272 | every `.vtt`/`.srt`/`.ass` file with non-empty text contributes its section |
| Subtitles.SectionsFromFiles | reader/bilibili_auto_crawler.py:262-272 | every section is `# 视频字幕: {name}\n\n{text}\n\n` for some subtitle file with non-empty text |
| Cleaning.CleanWith | douban_cleaning.py:13-26 | a page without the client marker is kept whole |
| Cleaning.CleanDouban | douban_cleaning.py:10-29 | a review page lacking `下载豆瓣客户端` is written unchanged |
| Cleaning.CleanByFind | douban_cleaning.py:19-26 | past the gate the text is cut before the first spoiler marker; if a tagline remains, the piece after its first occurrence up to the next one is kept, else the cut text |
| Cleaning.TaglinePiece | douban_cleaning.py:24-26 | `split(tagline)[1]` is a slice of the text that holds no tagline |
| Cleaning.CleanIsSlice | douban_cleaning.py:13-26 | cleaning only cuts: the output is a slice of the input; past the gate it holds no spoiler marker, nor a tagline when one came before the spoiler |
| Cleaning.CleanDoubanCuts | douban_cleaning.py:13-26 | the Douban cleaner's output is a slice of the page without `有关键情节透露` once the gate passes |
| Cleaning.TaglineAfterSpoilerIgnored | douban_cleaning.py:19-26 | spoiler truncation runs first, so a tagline only after the marker has no effect and the output is strictly shorter |
| Cleaning.AsWrittenCutsAtFirstDot | douban_cleaning.py:8 | the output name as written is the whole path up to its first `.`, plus `_cleaned.txt` |
| Cleaning.AsWrittenWithoutDottedDirectory | douban_cleaning.py:8 | with no dot in the directory, the name as written sits next to its input |
| Cleaning.AsWrittenDottedDirectoryCollides | douban_cleaning.py:8 | with a dot in a directory name, every review there gets the same output name, outside its directory |
| Cleaning.DottedDirectoryExample | douban_cleaning.py:8 | `notes.v2/website/douban_7.txt` and `notes.v2/website/douban_8.txt` share an output name |
| Cleaning.CleanedNameNextToInput | douban_cleaning.py:8 | the corrected name replaces only the file's own extension and stays in the input's directory |
| Cleaning.CleanedNamesDistinct | douban_cleaning.py:8 | the corrected name gives different reviews in one directory different outputs |
| Cleaning.CleanedNamesSkipped | douban_cleaning.py:32-34 | the output name as written and the corrected one both contain `cleaned`, so a run skips an earlier output listed in its directory |
| Cleaning.SuffixedNameSkipped | douban_cleaning.py:8 | any name ending `_cleaned.txt` contains `cleaned` |
| Cleaning.DoubanFileCleaned | douban_cleaning.py:8-35 | as written, every listed name without `cleaned` is cleaned into the file its joined path's first-dot cut names |
| Cleaning.DoubanWritesFromFiles | douban_cleaning.py:8-35 | as written, every write comes from a listed name without `cleaned`, to its first-dot-cut name |
| Cleaning.DoubanFileCleanedWith | douban_cleaning.py:32-35 | under any output naming, every listed name without `cleaned` is cleaned |
| Cleaning.DoubanWritesFromFilesWith | douban_cleaning.py:32-35 | under any output naming, every write comes from a listed name without `cleaned` |
| Cleaning.DoubanFilesCollideAsWritten | douban_cleaning.py:8-35 | as written, two reviews listed in a directory `top.sub` are both written to `top_cleaned.txt` |
| Cleaning.CorrectedFileCleaned | douban_cleaning.py:32-35 | with the corrected naming, every listed name without `cleaned` is cleaned into the file next to it |
| Cleaning.PromptEmbedsText | reader/video_cleaning.py:9-22 | the prompt carries the whole transcript: different transcripts give different prompts (also video_cleaning.py:9-21) |
| Cleaning.CleanVideo | reader/video_cleaning.py:5-31 | the model's answer to the prompt is what is written |
| Cleaning.CleanedTranscriptSkipped | reader/video_cleaning.py:28 | replacing every `.txt` with `_cleaned.txt` gives a name that ends `_cleaned.txt`, so it is never selected again |
| Cleaning.Transcripts | reader/video_cleaning.py:41 | only listed names ending `.txt` and not `_cleaned.txt` are selected, in listing order |
| Cleaning.TranscriptsComplete | reader/video_cleaning.py:41 | every such listed name is selected |
| Cleaning.CleanEach | reader/video_cleaning.py:47-50 | one cleaning per selected file, at `{path}/{name}`, in order |
| Cleaning.CleanAllVideoFiles | reader/video_cleaning.py:33-50 | a missing directory returns early; an empty selection returns without calling the model; otherwise every selected file is cleaned once |
| Cleaning.CleanAllVideos | video_cleaning.py:32-36 | without a directory check, a missing directory raises; otherwise every selected file is cleaned once |
| ParseReview.FillInPlace | reader/parse_review.py:57 | `replace("<REVIEW>", review)` on a template with one placeholder puts the whole review where the placeholder was |
| ParseReview.TemplatesClean | reader/parse_review.py:9-52 | the four templates hold `<` only in their one placeholder |
| ParseReview.ReviewPromptsEmbed | reader/parse_review.py:57-63 | every prompt is its template with the review, whole and verbatim, in place of `<REVIEW>` |
| ParseReview.ReviewPromptsInjective | reader/parse_review.py:57-63 | different reviews give different prompts |
| ParseReview.ReviewParser | reader/parse_review.py:54-65 | story, feeling, evaluation and thinking are the model's answers to the story, feeling, evaluation and thinking prompts of the review |
| ParseReview.WebsiteSourceAsWritten | reader/parse_review.py:86-90 | a website row's source is `douban` |
| ParseReview.VideoSourceAsWritten | reader/parse_review.py:104-113 | `ytb_` files are `youtube`, otherwise `bilibili_` files are `bilibili`, anything else `unknown` |
| ParseReview.DropPrefix | reader/parse_review.py:104-110 | the id without its platform prefix, which put back gives the file stem |
| ParseReview.WebsiteSource | reader/parse_review.py:86-90 | the corrected website row is still a `douban` row |
| ParseReview.VideoSource | reader/parse_review.py:104-113 | the corrected video row has the same platform as written |
| ParseReview.ReviewIdOfCleaned | reader/parse_review.py:86 | `split("_cleaned.txt")[0]` of a cleaned file gives its stem back |
| ParseReview.WebsiteUrlAsWritten | reader/parse_review.py:86-87 | as written, the cleaned file of review `id` gets the URL `review/douban_{id}/` |
| ParseReview.WebsiteUrlOfReview | reader/parse_review.py:86-87 | corrected, the URL is `https://book.douban.com/review/{id}/` |
| ParseReview.PlatformOfFile | reader/parse_review.py:105-108 | a `ytb_` file is a YouTube row and a `bilibili_` file a bilibili row |
| ParseReview.YoutubeUrlAsWritten | reader/parse_review.py:104-107 | as written, the transcript of video `v` gets `watch?v=ytb_{v}` |
| ParseReview.BilibiliUrlAsWritten | reader/parse_review.py:104-110 | as written, the transcript of video `v` gets `video/bilibili_{v}` |
| ParseReview.YoutubeUrlOfId | reader/parse_review.py:104-107 | corrected, the row is `youtube` with `https://www.youtube.com/watch?v={v}` |
| ParseReview.BilibiliUrlOfId | reader/parse_review.py:104-110 | corrected, the row is `bilibili` with `https://www.bilibili.com/video/{v}` |
| ParseReview.CleanedFiles | reader/parse_review.py:84-85 | only listed names ending `cleaned.txt` are read, in listing order |
| ParseReview.CleanedFilesComplete | reader/parse_review.py:84-85 | every such listed name is read |
| ParseReview.ParseFiles | reader/parse_review.py:84-91 | exactly one row per file, in order |
| ParseReview.ParseReviews | reader/parse_review.py:69-128 | as written, one row per cleaned website file and per cleaned video file |
| ParseReview.RowOf | reader/parse_review.py:84-116 | for any source naming, row `k` is the row of the `k`-th cleaned website file, or past those the row of the matching cleaned video file |
| ParseReview.WebsiteRowsFirst | reader/parse_review.py:84-91 | as written, the table starts with one `douban` row per cleaned website file, in listing order, whose URL is `review/{stem}/` with the whole file stem |
| ParseReview.VideoRowsAfter | reader/parse_review.py:102-116 | as written, after the website rows come the video rows, in listing order: a `ytb_` file gives a `youtube` row with the watch URL, a `bilibili_` file a `bilibili` row with the video URL, any other an `unknown` row with a review URL; each URL carries the whole file stem, prefix included |
| ParseReview.CorrectedRowsDifferOnlyInUrl | reader/parse_review.py:84-116 | the corrected table has the same length and, row by row, the same source and answers; only the URL differs |
| ParseReview.CorrectedWebsiteRows | reader/parse_review.py:86-87 | corrected, a website row's URL names the id without `douban_` |
| ParseReview.ParseFileSource | reader/parse_review.py:116 | a row's first column is the source its file is mapped to |
| ParseReview.VideoSourceKinds | reader/parse_review.py:105-113 | a video row's source is one of the three platform names, the same as written and corrected |
| Report.LinesAppend | reader/report.py:31-42 | the numbered lines of two runs of rows are the first run's lines followed by the second's, numbered on |
| Report.ListingOne | reader/report.py:39-42 | one row gives one numbered line |
| Report.ListingNumbers | reader/report.py:31-42 | row `k` (from 0) is listed under number `first + k`, between the lines of the rows before and after it |
| Report.DigitRun | reader/report.py:39 | the number at the head of a line is read as its run of digits |
| Report.NumberEnds | reader/report.py:39 | two digit runs each followed by a non-digit that spell the same text are the same number |
| Report.EntryNumbered | reader/report.py:39-42 | a numbered line gives back its number and value: different rows, or one row under different numbers, give different lines |
| Report.CategoryStep | reader/report.py:32-42 | each further row appends exactly its own line, numbered by its 1-based position |
| Report.CategoryStart | reader/report.py:12-28 | with no rows a category prompt is its header naming the book |
| Report.CategoryPrompts | reader/report.py:31-42 | the loop builds each category prompt as its header followed by one `# {id} 的…描述：{value}` line per row, rows numbered from 1 |
| Report.ReportInOrder | reader/report.py:53-73 | the final prompt holds the plot, feeling, evaluation and thinking answers verbatim, in that order, without overlap |
| Report.ReportParserWith | reader/report.py:7-84 | five model calls; the fifth is the final prompt, written to `{book}_prompt.md`; its answer is written to `{book}.md` and returned |
| Report.WithPlotOpens | reader/report.py:45-47 | every later category prompt opens with the book name and the plot answer |
| Report.PlotFirst | reader/report.py:44-47 | the first call is the story prompt alone, and the next three each start with the book name and the model's answer to it |
| Report.ReportHoldsAnswers | reader/report.py:44-73 | the final prompt is built from the answers to the first four calls, in call order |
| Report.ReportParser | reader/report.py:7-84 | with the page's own wording, the report is the answer to the final prompt made of the four answers |
| Report.ChineseLinesNumbered | reader/report.py:39-42 | the text after a line's number starts with a non-digit, so the lines are told apart by their numbers |
| Cookies.Pair | tmp.py:19 | a cookie splits at its first `=` only, so the value may hold `=`; rejoined it is the cookie; a cookie without `=` raises `ValueError` |
| Cookies.Entry | tmp.py:19-20 | a cookie gives a line exactly when it holds `=`, and raises `ValueError` otherwise |
| Cookies.LinesWith | tmp.py:18-20 | the loop ends without error exactly when every cookie converts, and an error it ends with is that of some cookie |
| Cookies.Lines | tmp.py:18-20 | the loop writes every line exactly when every cookie holds `=`; otherwise it raises `ValueError` |
| Cookies.CookiesOf | tmp.py:17 | the cookies, rejoined with `"; "`, give the stripped input back; none holds `"; "`; there is always at least one |
| Cookies.Convert | tmp.py:13-20 | the file starts with the two Netscape comment lines and a blank line, and is complete exactly when every cookie holds `=` |
| Cookies.LinesAppend | tmp.py:18-20 | one output line per cookie, in order: converting two runs of cookies writes the first's lines, then the second's |
| Cookies.LinesOne | tmp.py:20 | one good cookie becomes the line `domain\tTRUE\t/\tFALSE\t0\tname\tvalue\n` |
| Cookies.StopsAtFirstBad | tmp.py:18-20 | the file holds the lines of the cookies before the first one without `=`, and nothing after |
| Cookies.EmptyInputFails | tmp.py:17-19 | an empty cookie string is one empty cookie, which raises after the header |
| Cookies.RecordFields | tmp.py:20 | a record without tabs in its parts splits at its tabs into the seven Netscape fields |
| Cookies.CookieRoundTrip | tmp.py:19-20 | round trip: the name and value fields of a record, rejoined with `=`, give the cookie back |
| WebUtils.Masked | website/utils.py:21-23 | masking keeps the length |
| WebUtils.ReplaceChar | website/utils.py:23 | `replace(c, '_')` turns every `c` into `_` and leaves every other character in place |
| WebUtils.ReplaceEachMasks | website/utils.py:21-23 | replacing the invalid characters one after another is a single pass that masks each of them, since `_` is not among them |
| WebUtils.Sanitize | website/utils.py:18-24 | the result holds none of `<>:"/\|?*` and is no longer than the input |
| WebUtils.MaskedClean | website/utils.py:21-23 | a masked string holds none of the masked characters |
| WebUtils.SanitizeIsMaskedStrip | website/utils.py:18-24 | sanitising is the one-pass mask followed by `strip` |
| WebUtils.SanitizeIdempotent | website/utils.py:18-24 | sanitising a sanitised name changes nothing |
| WebUtils.SanitizeKeeps | website/utils.py:18-24 | a character that is neither invalid nor whitespace survives sanitising |
| WebUtils.ValidBookNameMeaning | website/utils.py:63-69 | a name is valid exactly when it has two non-whitespace characters, so empty, blank and one-character names are rejected |
| WebUtils.StemOf | website/utils.py:79-80 | a file is the `.md` file of stem `b` exactly when it is `b.md` |
| WebUtils.MarkdownStemsMembers | website/utils.py:77-80 | a stem is collected exactly when its `.md` file is listed |
| WebUtils.AvailableBooks | website/utils.py:72-82 | the books are the `.md` stems of the listing, sorted; a missing directory gives `[]` |
| WebUtils.AvailableBookIff | website/utils.py:72-82 | a book is offered exactly when its `.md` file is in the directory |
| WebUtils.AvailableBooksUnique | website/utils.py:82 | the book list is the only sorted arrangement of the stems |
| WebUtils.RoundHalfEven | website/utils.py:88 | Python's `round` of an exact quotient: the nearest integer, ties to the even one |
| WebUtils.ReadingTime | website/utils.py:85-88 | the estimate is at least one minute; a zero rate raises `ZeroDivisionError` |
| WebUtils.ReadingTimeNearest | website/utils.py:87-88 | above one minute, the estimate is the whole number nearest to words over rate |
| WebUtils.ShortTextOneMinute | website/utils.py:87-88 | a text with fewer words than half the rate reads in one minute |
| WebUtils.Truncate | website/utils.py:91-95 | a text within the limit is returned unchanged; a longer one is a prefix of its first `max` characters, with only trailing whitespace removed, followed by `...` |
| WebUtils.TruncateBound | website/utils.py:91-95 | a truncated text is at most three characters longer than the limit |
| WebUtils.InitVar | website/utils.py:110-114 | the key is set to the default only when absent; no other key changes |
| WebUtils.InitVarIdempotent | website/utils.py:110-114 | initialising twice is initialising once, whatever the second default |
| WebUtils.ClearVars | website/utils.py:116-121 | exactly the listed keys that are present are removed; other keys keep their values |
| WebUtils.ClearVarsSubtracts | website/utils.py:116-121 | clearing is the subtraction of the listed keys |
| WebUtils.GetVar | website/utils.py:123-126 | the value of the key, or the default when it is not set |
| WebUtils.GetAfterInit | website/utils.py:110-126 | after initialising, reading gives what was there or the initial default |
| WebUtils.GetAfterClear | website/utils.py:116-126 | after clearing, reading a listed key gives the default |
| WebUtils.NewTracker | website/utils.py:132-135 | a fresh tracker is at step zero |
| WebUtils.Update | website/utils.py:139-148 | the step count goes up by exactly one; a zero total raises after the count; otherwise the status is `{description}: {step}` for a non-empty step text and `{description}: {current}/{total}`, with the new count, when the step text is missing or empty |
| WebUtils.UpdateAllCounts | website/utils.py:139-141 | with a non-zero total, `n` updates advance the count by exactly `n` |
| Personas.ZipDict | website/prompt.py:574 | `dict(zip(keys, values))` has every key that has a partner value |
| Personas.ZipLookup | website/prompt.py:574 | with distinct keys, each key looks up the value at its own position |
| Personas.ZipKeysAbsent | website/prompt.py:574 | a key carried by no pair is not in the dictionary |
| Personas.MbtiTypesDistinct | website/prompt.py:552-553 | the type list holds sixteen different four-letter names |
| Personas.MbtiInfoByPosition | website-en/prompt.py:9-31 | both sites' `MBTI_INFO_DICT` pair each type with the description at the same position (the Chinese one at website/prompt.py:552-574) |
| Personas.AttitudeBitsDecode | website/prompt.py:705-709 | the three bits person 0, 1 and 2 read spell the draw in binary |
| Personas.AttitudesMixed | website/prompt.py:704-709 | the three bits agree exactly when the draw is 0 or 7, which `randint(1, 6)` never gives |
| Personas.PersonaPromptsDiffer | website/prompt.py:641-645 | prompts for different four-letter types differ, since the type follows the fixed opening |
| Personas.BookPrompt | website/prompt.py:634-639 | the book prompt opens with the template's head and the book name, and ends with the summary and the template's close |
| Personas.ChineseDrawable | website/prompt.py:552-574 | the Chinese site's catalogue has sixteen distinct four-letter types and sixteen descriptions |
| Personas.PersonaFor | website/prompt.py:709-716 | person `i` with bit `b` takes stance, name, avatar and style guide all from cell `[i][b]`, and its prompt names the type, its description and that stance |
| Personas.DrawnPersonasDiffer | website/prompt.py:696-721 | three personas from distinct drawn types have three different prompts, and some take the first attitude of their row and some the second |
| Personas.Describe | website/prompt.py:715 | `MBTI_INFO_DICT[type]` is the description at the drawn type's own position |
| Personas.BuildPersons | website/prompt.py:707-718 | the loop builds person `i` from bit `i` of the draw and the `i`-th drawn type, for `i` = 0, 1, 2 |
| Personas.ThreePersons | website/prompt.py:696-721 | `three_person_generation`: every persona takes its entries from one cell of its row; the prompts differ; the attitudes are never all equal; the book prompt names the book and carries the summary |
| Personas.ToneOf | website/prompt.py:815-825 | the rational tone is chosen exactly for 理中客, 理性粉 and 理性黑 (Rational Neutral, Rational Fan and Rational Critic at website-en/prompt.py:194-204) |
| Personas.ExampleLines | website/prompt.py:827-830 | the loop over `range(0, len(guide) - 1, 2)` writes the pairs (0,1), (2,3), … as original and rewrite |
| Personas.ExamplesAppendPair | website/prompt.py:828-830 | adding a pair to an even guide adds one example at the end |
| Personas.ExamplesOddIgnored | website/prompt.py:828 | an odd trailing sentence never reaches the examples |
| Personas.FifthDislikeSentenceIgnored | website/prompt.py:614-621 | the strongly disliking persona's guide has five sentences, so its fifth is never shown |
| Personas.Initialization | website/prompt.py:831-834 | the section is empty exactly for `""` or `[]`; any other text is embedded; a non-empty list raises `TypeError` |
| Personas.StylePrompt | website/prompt.py:811-880 | the rewriter prompt carries the chosen tone, the examples and the initialization, and raises exactly when the initialization does |
| Personas.SameToneSamePrompt | website/prompt.py:815-825 | only the tone depends on the persona name |
| Personas.RationalCells | website/prompt.py:579-581 | on the Chinese site the rational tone goes to exactly the cells `[0][0]`, `[1][1]` and `[2][1]` |
| Personas.CardModel | website/prompt.py:677-679 | the environment's model name, or `gpt-4.1` (`claude-3-7-sonnet-20250219` at website-en/prompt.py:78-80) when it is unset |
| Personas.ExampleChatNames | website/prompt.py:897-903 | every speaker of the example chat appears with the colon |
| Personas.RephrasePromptAsWritten | website/prompt.py:892-904 | as written, the prompt is a plain string, so it is the prompt with the literal `{name1}`, `{name2}`, `{name3}` |
| Personas.AsWrittenIgnoresNames | website/prompt.py:890-904 | as written, the names passed in never reach the prompt |
| Personas.RephrasePrompt | website/prompt.py:890-904 | corrected, each of the three names appears followed by the colon |
| Personas.Rephrase | website/prompt.py:890-909 | as written, the answer to the placeholder prompt, whatever names are passed, split on `\n`: at least one line, none holding `\n`, joining back to the answer |
| Personas.RephraseWith | website/prompt.py:905-909 | for a given system prompt, the answer split on `\n`: at least one line, none holding `\n`, joining back to the answer |
| Personas.RephraseIgnoresNames | website/prompt.py:890-909 | as written, the rephrased lines do not depend on the names passed |
| Personas.RephraseCorrected | website/prompt.py:890-909 | corrected, the lines of the answer to the prompt naming the three personas |
| Conversation.BookNamesAreStems | website-en/chatbot.py:42-43 | in a directory of `.md` files, cutting three characters is cutting the extension |
| Conversation.BookFileListed | website-en/chatbot.py:42-43 | in a directory of `.md` files a name is offered exactly when its `.md` file exists |
| Conversation.KeptMembers | website-en/chatbot.py:175-177 | a question is kept exactly when some non-blank piece, stripped and given the suffix, is that question |
| Conversation.NonBlank | website-en/chatbot.py:177 | the filter keeps only non-blank questions |
| Conversation.NonBlankKeepsAll | website-en/chatbot.py:177 | filtering a list without blank questions keeps it whole |
| Conversation.ParseQuestions | website-en/chatbot.py:169-177 | no parsed question is blank |
| Conversation.KeptLines | website-en/chatbot.py:169-171 | the primary parse gives exactly the non-blank lines, stripped |
| Conversation.QuestionsAreLines | website-en/chatbot.py:169-174 | with three non-blank lines or more, the questions are exactly those lines, stripped |
| Conversation.FallbackQuestions | website-en/chatbot.py:174-177 | below three lines, every question is a stripped, non-blank, `?`-free text followed by one `?` |
| Conversation.Suggestions | website-en/chatbot.py:183-190 | the suggestion text opens with its head and lists the first three questions; fewer than three raises `IndexError` |
| Conversation.Choice | website-en/chatbot.py:180 | `random.choice` gives a member of the pool, and raises `IndexError` on an empty pool |
| Conversation.ChoiceReachesAll | website-en/chatbot.py:180 | every question in the pool can be drawn |
| Conversation.RemoveFirst | website-en/chatbot.py:219-221 | `remove` shrinks the pool by exactly one copy of the question; a missing question raises `ValueError` |
| Conversation.RemoveFirstCut | website-en/chatbot.py:221 | the removal cuts out the first occurrence and keeps the others in order |
| Reader.SelectBook | website/main.py:39-51 | the chosen book is remembered; a rerun is asked for exactly when a different book was remembered, and then the log and the questions are cleared; the first choice keeps the log; the same book changes nothing |
| Reader.SelectBookIdempotent | website-en/chatbot.py:63-75 | choosing the same book again after the rerun changes nothing and asks for no rerun |
| Reader.ChooseBook | website-en/chatbot.py:46-58 | the URL's `book` parameter wins when it names a listed book; the dropdown's choice is used otherwise |
| Reader.ChosenBookListed | website-en/chatbot.py:46-58 | the chosen book is a listed one whenever the dropdown offers listed books |
| Reader.InitialPrompt | website/main.py:92 | the formatted prompt starts with the template's head and the book's text and ends with the book's name and the template's tail |
| Reader.InitialMessageAsWritten | website/main.py:98-102 | the Chinese page adds the opening assistant message only while the `messages` key is absent |
| Reader.InitialMessage | website-en/chatbot.py:126-130 | an absent or empty log becomes exactly the one opening assistant message; a non-empty log is kept as it was |
| Reader.SwitchLosesOpening | website/main.py:45-51 | after a switch to another book the Chinese guard leaves the log empty, while the English guard opens it with the new book's prompt |
| Reader.UnhiddenKeepsAll | website/main.py:107 | nothing is hidden when the first message is not the assistant's opening prompt |
| Reader.UnhiddenKeepsOthers | website/main.py:107 | only copies of the first message are ever hidden |
| Reader.DisplayedSkipsOpening | website/main.py:104-110 | a log opened by the assistant's prompt, which does not recur, is shown without it; any other log is shown whole |
| Reader.OpeningQuestions | website/main.py:123-151 | the first questions succeed exactly when at least three are parsed (with the `?` fallback); the drawn one is among them and the suggestion text names the book; fewer than three raise `IndexError` |
| Reader.NextQuestion | website/main.py:160-179 | a non-empty pool gives a question from the pool and loses exactly that one copy, with an empty suggestion text; an empty or missing pool is refilled from the reply's lines, and raises `IndexError` unless it has three; a refill shows the first questions under the refresh head and bullets |
| Reader.Turn | website/main.py:156-194 | a turn that raises in the question step leaves the log unchanged; otherwise it appends the user's message and the model's reply to the whole log, in that order |
| Reader.PairAlternates | website/main.py:184-194 | appending a question and its answer keeps the log an opening prompt followed by user/assistant pairs |
| Reader.TurnAlternates | website/main.py:156-194 | every turn keeps the log alternating |
| Reader.PoolLasts | website/main.py:174-179 | a non-empty pool serves the turn without the model's reply and shrinks by one |
| Reader.RecentWindow | website-en/chatbot.py:252 | the window is the last five messages when there are six or more, and all but the opening one otherwise |
| Reader.WindowSkipsOpening | website-en/chatbot.py:252 | the window is a suffix of the log, never holds the opening message and never more than five |
| Reader.SvgCode | website-en/chatbot.py:286 | the code is extracted exactly when the card holds a `` ```svg `` block, and `IndexError` is raised otherwise |
| Reader.SvgCodeBetweenFences | website-en/chatbot.py:286 | the code is the fence-free prefix of the text after the first `` ```svg ``, ending at the next fence or at the end |
| Reader.WhiteTagSetsColor | website-en/chatbot.py:292 | the inserted style attribute sets a background colour |
| Reader.WhiteBackground | website-en/chatbot.py:290-292 | code with a background of its own or without `<svg` is kept; code without a background has every `<svg` replaced by the white-styled tag (the meaning of that replace is given by `Strings.ReplaceAbsent`, `ReplaceTrailing` and `ReplaceSingle`), and code with `<svg` ends up with a background |
| Reader.WhiteBackgroundSingleTag | website-en/chatbot.py:290-291 | code with a single `<svg` and no background gets `<svg style="background-color: white"` in its place, with every other character kept |
| Reader.WhiteBackgroundIdempotent | website-en/chatbot.py:290-292 | whitening twice is whitening once |
| Reader.AsWrittenAcceptsUnparseable | website-en/chatbot.py:283-286 | the retry loop's test accepts a reply `svg` from which the extraction raises `IndexError` |
| Reader.AcceptedParses | website-en/chatbot.py:282-286 | every reply the corrected test accepts yields its code |
| Reader.CardAttempts | website-en/chatbot.py:278-284 | for any acceptance test: at most three attempts, stopping at the first accepted reply, the attempt `StopAttempt` names; every earlier reply was rejected, and the last is accepted unless all three were used |
| Reader.BookmarkSvg | website-en/chatbot.py:278-292 | as written, the card is made from the first reply starting with `` ```svg `` or `svg`; only `IndexError` can fail it, and a first reply accepted without a fence fails it |
| Reader.AsWrittenLoopRaises | website-en/chatbot.py:278-286 | replies `svg`, then a fenced block: as written the extraction raises, while the corrected test makes the card |
| Reader.BookmarkSvgCorrected | website-en/chatbot.py:278-292 | corrected, the card is made whenever one of the three replies holds a `` ```svg `` block |
| Chat.Names | website/chatbot.py:234-239 | the three display names are the personas' `preference_name`s, in persona order |
| Chat.SelectBook | website/chatbot.py:38-53 | the chosen book is remembered and the cast kept; a rerun is asked for exactly when another book was remembered, and then all four logs are emptied; a new choice stores the book's prompt and clears the system prompt and the last response; the same book changes nothing |
| Chat.SelectBookIdempotent | website/chatbot.py:38-53 | choosing the same book again after the rerun changes nothing and asks for no rerun |
| Chat.Broadcast | website/chatbot.py:226-229 | the user's message is appended to the group chat and to each persona's history |
| Chat.Post | website/chatbot.py:125-142 | a persona's reply is appended to the group chat under its numbered role, to its own history as `assistant`, and to the other two under the given role |
| Chat.SpeakerOf | website/chatbot.py:244-272 | the loop's branches send 1 and 2 to their own persona and anything else to the third |
| Chat.Voices | website/chatbot.py:246-248 | a persona's voice is its raw reply, rewritten by the style model under that persona's style prompt, which quotes the message it answers |
| Chat.ReplyLoop | website/chatbot.py:241-272 | the loop computes the replies in order, and the last response is the prompt when there are none and the last reply otherwise |
| Chat.ReplyContext | website/chatbot.py:243-272 | each reply comes from the persona its entry names, carries that persona's name and avatar, and answers the reply before it (the first answers the prompt) |
| Chat.EachSpeaksOnce | website/chatbot.py:241-244 | with a shuffle of 1, 2, 3 every persona speaks exactly once per round |
| Chat.Lines | website/chatbot.py:280-282 | one line per reply, each opening with its speaker's name and a full-width colon |
| Chat.CombinedSplits | website/chatbot.py:280-282 | without line breaks in names and replies, splitting the combined message at line breaks gives back one line per reply, in order, and an empty tail |
| Chat.FirstSpeaker | website/chatbot.py:285-306 | a line goes to the first of the three names it is signed by, with either colon; no persona when it names none |
| Chat.SeenByAppend | website/chatbot.py:285-306 | a persona's view of two runs of messages is the view of each, concatenated |
| Chat.RouteFansOut | website/chatbot.py:285-306 | routing appends the routed messages to the group chat and to every persona's history as that persona sees them, so the histories stay in step |
| Chat.PostThenRest | website/chatbot.py:287-290 | posting one signed line and then the rest is appending the line's message followed by the rest |
| Chat.RoutedMembers | website/chatbot.py:285-306 | a message is routed exactly when some line is signed, and it carries that line under the role of the first persona the line is signed by |
| Chat.Starts | website/chatbot.py:110-117 | each persona's history begins with its system prompt (book prompt, line break, persona prompt) and the user's greeting |
| Chat.OpeningShape | website/chatbot.py:114-142 | after the opening round the group chat is the greeting and the three replies, and every history holds the same five messages, its own reply as `assistant` and the others as `user` |
| Chat.DrawCast | website/chatbot.py:96-100 | the three drawn personas fill their catalogue cells, have distinct prompts, and come with the book prompt |
| Chat.StartReading | website/chatbot.py:93-144 | "start reading" draws a cast, opens every history with its system prompt and the greeting, runs the opening round in order 1, 2, 3, and leaves the last response as the third reply; the remembered book and the system prompt are kept |
| Chat.Rephraser | website/chatbot.py:283 | the rephrasing call sends its system prompt and the combined message as one chat to the style model |
| Chat.Turn | website/chatbot.py:222-306 | as written: a turn without a cast raises `TypeError` after the prompt has gone into all four logs; the cast and the remembered book never change |
| Chat.TurnWith | website/chatbot.py:222-306 | for any rephrase prompt: a turn without a cast raises `TypeError` after the prompt has gone into all four logs; the cast and the remembered book never change |
| Chat.TurnWithRoutes | website/chatbot.py:222-306 | with a cast, a turn routes the lines rephrased under its prompt, built from the three names, of the replies drawn in the given order |
| Chat.TurnRoutes | website/chatbot.py:222-306 | as written, with a cast, a turn routes the lines the style model gives for the placeholder prompt of website/prompt.py:890-909, and the last response is the last reply |
| Chat.TurnCorrectedRoutes | website/chatbot.py:222-306 | corrected, a turn routes the lines the style model gives for the prompt naming the three personas |
| Chat.TurnFansOut | website/chatbot.py:222-306 | as written, with a cast, the group chat gains the prompt and then the routed lines of the placeholder-prompt answer, every history gains the same as its persona sees them, and the last response is the last reply |
| Chat.Shown | website/chatbot.py:151-174 | a system message is skipped; a message of persona `k` is shown with that persona's emoji and the text `preference_name + "："` + content; any other message with the `user` avatar and its bare content |
| Chat.NonSystem | website/chatbot.py:153-155 | the filter keeps exactly the messages that are not system messages, and never more messages than the log has |
| Chat.Display | website/chatbot.py:151-174 | the chat is shown exactly when there is a cast or every message is a system message, and then it is the `Shown` form of each non-system message, in order; otherwise reading the names raises `TypeError` |
| BookManager.WaitingAnimation | website/book_manager.py:62-69 | while the worker is alive the bar counts up by one modulo 100, and it ends at 100 |
| BookManager.FirstExisting | website/book_manager.py:206-210 | the search stops at the first existing path: every earlier one is missing, and none exists when it finds nothing |
| BookManager.DefaultPrompt | website/book_manager.py:212-231 | the basic prompt opens with its title and the book's name, ends with the processing time and the topics, and is never empty |
| BookManager.FinalReportWins | website/book_manager.py:196-197 | the final report is used whenever it exists |
| BookManager.FallbackOrder | website/book_manager.py:197-231 | without a final report the first existing fallback is read and the search stops there; its text is used unless it is empty, and then the basic prompt is used |
| BookManager.EmptyOnlyFromFinalReport | website/book_manager.py:196-234 | the prompt text is empty exactly when the final report exists and is empty |
| BookManager.CreateBookPrompt | website/book_manager.py:192-243 | the book's prompt file is written with the prompt text, whose choice `FinalReportWins`, `FallbackOrder` and `EmptyOnlyFromFinalReport` state, and no other file changes |
| BookManager.PromptFileIsNoReport | website/book_manager.py:196-241 | the prompt file is never one of the reports it is made from |
| BookManager.CreateBookPromptIdempotent | website/book_manager.py:192-243 | writing the prompt file a second time changes nothing |
| BookManager.FirstExistingSame | website/book_manager.py:206-210 | two file sets that agree on which paths exist find the same first path |
| BookManager.SubmitAsWritten | website/book_manager.py:248-263 | the form does nothing without a submit or a name, shows an error for a blank name, and processes only a book that is not there yet |
| BookManager.AsWrittenNeverReprocesses | website/book_manager.py:256-259 | as written, a book already there is never processed again, whatever is clicked |
| BookManager.Submit | website/book_manager.py:248-263 | a submit of an existing book asks for confirmation and remembers the book; the confirm click processes the remembered book; other clicks change nothing |
| BookManager.ConfirmReprocesses | website/book_manager.py:256-259 | submitting an existing book and then confirming processes it again |
| BookManager.ProcessedNamesValid | website/book_manager.py:248-249 | every processed or remembered book has a non-space character |
| BookManager.Without | website/book_manager.py:295 | removing a file unlists exactly that file |
| BookManager.DeleteClickAsWritten | website/book_manager.py:291-302 | the click arms the flag of its position; an armed position deletes the book now shown there |
| BookManager.AsWrittenDeletesOnOneClick | website/book_manager.py:291-302 | after deleting the first of two books, one click on the first position deletes the other book, which was never clicked before |
| BookManager.DeleteClick | website/book_manager.py:291-302 | with the flag keyed by the book and cleared by the delete, a click deletes the book only when the book itself was armed, and arms it otherwise |
| BookManager.DeleteClickRemovesOnlyArmed | website/book_manager.py:291-302 | a click deletes at most the clicked book, and only when it was armed; every other book stays listed |
| BookManager.ConfirmByNameKeepsNext | website/book_manager.py:291-302 | the same three clicks leave the second book listed and armed by its own first click |
| Bookshelf.MarkdownStem | website/bookshelf.py:24-25 | the stem of `b.md` is `b` for every non-empty `b` |
| Bookshelf.HiddenMarkdownStem | website/bookshelf.py:24-25 | the file `.md` is a hidden file without suffix, so its stem is the whole name |
| Bookshelf.LoadExistingBooks | website/bookshelf.py:22-27 | the books are the stems of the `*.md` files, sorted, none lost and none added |
| Bookshelf.GlobStemsAreMarkdownStems | website/bookshelf.py:24-26 | away from the hidden file `.md`, the stems are the file names with `.md` cut off |
| Bookshelf.SameBooksAsChat | website/bookshelf.py:22-27 | without the hidden file `.md`, the bookshelf lists the same books as the chat pages |
| Bookshelf.HiddenFileListedDifferently | website/bookshelf.py:24-25 | with the hidden file `.md` the bookshelf lists `.md` while the chat pages list the empty name |
| Bookshelf.PreviewIsPrefix | website/bookshelf.py:122-123 | the preview is a beginning of the text followed by `...` |
| Bookshelf.OneParagraphShownWhole | website/bookshelf.py:122-123 | a text without a blank line is previewed whole |
| Bookshelf.Card | website/bookshelf.py:112-115 | a card opens exactly when the book's `.md` file exists, and raises `FileNotFoundError` otherwise |
| Bookshelf.Cards | website/bookshelf.py:110-123 | the page shows every card exactly when every book's file opens, one card per book in list order |
| Bookshelf.CardsOpen | website/bookshelf.py:105-123 | every listed book's card opens when the directory holds no hidden `.md` file |
| Bookshelf.HiddenFileCardFails | website/bookshelf.py:105-115 | a directory holding just the hidden `.md` file makes the page raise `FileNotFoundError` |
| Bookshelf.GenerationPrompt | website/bookshelf.py:56-71 | the title and the description stand at their places in the prompt |
| Bookshelf.Save | website/bookshelf.py:83-85 | the file gets the text and is listed; every file listed before stays listed, and the listing stays in step with the files |
| Bookshelf.AddBook | website/bookshelf.py:140-162 | through `generate_book_prompt` (website/bookshelf.py:83-85), a click with both fields saves the generated text: on the shelf for a title without `/`; for a title with `/`, at `BOOK_PROMPT_DIR / f"{title}.md"` when its directory exists, and otherwise the error is shown; a click with an empty field warns; the shelf changes only for a shelf save |
| Bookshelf.PromptPathInShelf | website/bookshelf.py:83 | a title's file lands in the shelf directory (`BOOK_PROMPT_DIR`, line 16) exactly when the title holds no `/` |
| Bookshelf.EscapingTitleSaved | website/bookshelf.py:83-85 | a title such as `../x` or `/tmp/x` is written off the shelf when its directory exists, and the shelf is unchanged |
| Bookshelf.AddedBookListed | website/bookshelf.py:140-157 | a saved book is listed afterwards, and its card previews the generated text |
| Bookshelf.GlobStemsMember | website/bookshelf.py:24-26 | every listed `.md` file's stem is among the glob's stems |
| Bookshelf.ViewDetails | website/bookshelf.py:126-128 | "View Details" remembers the book and adds nothing else to the session |
| Bookshelf.Details | website/bookshelf.py:165-178 | the panel is shown exactly while a book is selected, with its file's text when the file exists; "Close Details" forgets the selection |
| Bookshelf.ViewThenClose | website/bookshelf.py:126-178 | viewing a book and then closing its details shows the book's text and leaves the session without a selection, otherwise as it was |
| Notes.Opened | website/page2.py:9-10 | the page starts from the session's notes, or from no notes |
| Notes.Save | website/page2.py:18-26 | a non-empty text becomes one new note at the end, with the stamp and no tags; an empty text changes nothing |
| Notes.Count | website/page2.py:31 | the count line spells the number of notes in decimal after its label |
| Notes.Delete | website/page2.py:45-47 | deleting note `i` removes it and shifts the later ones down by one; past the end it raises `IndexError` |
| Notes.DeleteRemovesOne | website/page2.py:45-47 | deleting takes out exactly the chosen note |
| Notes.SaveThenDelete | website/page2.py:18-47 | deleting the note just saved gives the notes back |
| Notes.Step | website/page2.py:18-47 | an action raises exactly when it deletes past the end |
| Notes.RunKeepsSaved | website/page2.py:18-47 | a run that does not raise keeps every note a saved one, and ends with the starting count plus the saves less the deletes |

## Left out

- Language-model calls (OpenAI clients, `nerif` agents, `autogen` agents) are function parameters without any contract. So is `compress_text` in the bookmark flow, which is not part of this model.
- HTTP requests, BeautifulSoup traversal, the Jina reader proxy, and the yt-dlp, lux, ffmpeg and whisper tools are external. Their results are inputs: heading-link lists, page bodies, download success, transcript text.
- File I/O and directory listings are abstract. A listing's order is an input, as `os.listdir` gives no order. Directory creation is modelled only where a contract needs it: the `madeDir` flag of the stand-alone Douban crawl and the bilibili download directory.
- Streamlit rendering, spinners, `st.rerun`, `st.switch_page` and the query-parameter writes are presentation. A button is modelled as true only in the rerun its own click caused.
- Threads, `time.sleep` rate limits and `process_book_pipeline` are not modelled. The pipeline only starts modelled steps in threads and reports their outcome. An exception inside a thread never reaches the `except` blocks at website/book_manager.py:85-173, so every step is reported as a success; that reporting is not modelled either. `show_waiting_animation` is modelled with the number of polls as an input.
- Floating point is not modelled:
  - the `万` and `千` branches of `_parse_play_count`, which is the parameter `playCount`;
  - `format_file_size`;
  - the fraction shown by `ProgressTracker`, for which only the counter and the status text are modelled. So `st.progress` raising once the count passes the total, or for a negative total, is not modelled either (`WebUtils.Update`).
- `calculate_reading_time` is modelled over exact integers, with Python's round-half-to-even.
- MD5 hashing, base64 download links, and `svg2png`/`svg2pdf` are library calls. The bookmark is modelled up to the whitened SVG text.
- `random.choice` is modelled as a drawn natural number taken modulo the pool's length. Every element of the pool can be drawn, as `Conversation.ChoiceReachesAll` shows. No distribution is modelled.
- The fixed wording of the prompts is a record of text parts. The source's wording is reproduced in constants, such as `Personas.ChineseRephrase`, `BookManager.ChineseDefault` and `Report.Chinese`, but every contract holds for any wording.
- The earlier copy of the module in `website/prompt.py` (lines 1-465) is not modelled. The later definitions shadow it.
- These files are plumbing or carry no cleaning logic, and are not part of this model:
  - `reader/douban_cleaning.py` (agent wiring);
  - `main.py` and `reader/main.py` (command-line entry points);
  - `website/config.py`, `website/Home.py` and the files under `website/pages/`;
  - `tests/test_crawler.py`, which tests a method the crawler does not define.
- `generate_card` in `website/chatbot.py` is not modelled. It is called only from commented-out code, and it refers to an undefined variable.
- Reader.NextQuestion: the Chinese and English pages' regeneration call sends the whole log as one nested list element. The model takes that reply as the input `refill`, and does not model the malformed request.
- Reader.RecentWindow: only which messages form the window is modelled, not the `role: content` transcript built from them.
- Bookshelf.AddBook: a title containing `/` is a path joined onto the shelf directory, and the file is written wherever that path's directory exists. Paths are compared as text: pathlib's collapsing of `//` and of `.` components, and the operating system's resolution of `..`, are not modelled. So the model does not see that `./x` or `../book_prompt/x` names a shelf file. Failures of the model call itself are not modelled.
- Urls.UrlSplit: `urlsplit`'s removal of tab, CR and LF, its stripping of leading C0 control or space characters, and its NFKC check of the network location are not modelled, as they vary between Python patch releases. ` https://youtu.be/x` gets an empty scheme here. The check that a bracketed host is an IPv6 or IPvFuture literal, which raises `ValueError` in Python 3.11.4 and later, is not modelled either: `http://[x]/` is accepted here.
- DoubanCrawler.DigitRunEnd: the digit run is ASCII-only, while `\d` in a `str` pattern also consumes other Unicode decimal digits such as full-width `１２`.
- DoubanCrawler.MatchAt: through `DigitRunEnd`, a review link whose id holds non-ASCII decimal digits, which `re.findall` would return, is not matched here.
- ParseReview.ParseReviews: the two listings are plain sequences. A missing `{book}/website` or `{book}/video` folder makes `os.listdir` raise `FileNotFoundError` (reader/parse_review.py:84 and 102); that error is not modelled.
- The English chat page writes the whole log as JSON to `website-en/chat_history/chat_history_{time}.json` after every turn (website-en/chatbot.py:238-242), creating the directory when missing. This file output is not modelled; the log itself is `Reader.Turn`'s. The Chinese page's copy of this code is commented out.
- Subtitles.SrtLines: the numeric-line test is ASCII-only, while `str.isdigit()` also accepts digits such as full-width `１２`.
- Subtitles.OtherLines: the same ASCII-only digit test as `Subtitles.SrtLines`.
- Strings.ParseInt: only ASCII decimal input is read; `int()` also accepts underscores between digits (`1_0`) and other Unicode decimal digits, which here give `None`.
- Report: the report reads the parsed reviews back from CSV with pandas (reader/report.py:9). That round trip turns an empty or `N/A` field into `nan` and `007` into `7`, and is not modelled; the rows are taken as written.
- The notes page's "edit" button has no effect in the source, and none in the model (`Notes.Step`).

## Findings

| source | as written | input that shows it | evidently intended | confidence | as-written member | corrected member |
|---|---|---|---|---|---|---|
| douban_cleaning.py:8 | the output name cuts the whole path at its first `.` | book `notes.v2`: `notes.v2/website/douban_7.txt` and `notes.v2/website/douban_8.txt` are both written to `notes_cleaned.txt` | replace only the file's own extension, next to the input | not executed | Cleaning.DoubanFilesCollideAsWritten | Cleaning.CorrectedFileCleaned |
| reader/parse_review.py:86-87 | the review id keeps the `douban_` prefix of the saved file name | `douban_123_cleaned.txt` gives `https://book.douban.com/review/douban_123/` | `https://book.douban.com/review/123/` | not executed | ParseReview.WebsiteUrlAsWritten | ParseReview.WebsiteUrlOfReview |
| reader/parse_review.py:104-107 | the video id keeps its `ytb_` or `bilibili_` platform prefix | `ytb_abc_cleaned.txt` gives `https://www.youtube.com/watch?v=ytb_abc` | `https://www.youtube.com/watch?v=abc` | not executed | ParseReview.YoutubeUrlAsWritten | ParseReview.YoutubeUrlOfId |
| reader/parse_review.py:108-110 | likewise for bilibili | `bilibili_BV1_cleaned.txt` gives `https://www.bilibili.com/video/bilibili_BV1` | `https://www.bilibili.com/video/BV1` | not executed | ParseReview.BilibiliUrlAsWritten | ParseReview.BilibiliUrlOfId |
| website/prompt.py:890-901 | the rephrase prompt is a plain string, not an f-string, so `{name1}` to `{name3}` reach the model verbatim | any three names give the same prompt | the example chat names the three personas | not executed | Chat.TurnRoutes | Chat.TurnCorrectedRoutes |
| website/main.py:98 | the opening prompt is added only while the `messages` key is absent | switch from book `A` to book `B`: the log is emptied and stays empty, so the next turn reaches the model without the book's prompt | add it also when the log is empty, as `website-en/chatbot.py:126` does | not executed | Reader.InitialMessageAsWritten | Reader.SwitchLosesOpening |
| website-en/chatbot.py:283-286 | the retry loop accepts a reply that starts with `svg` and rejects one with the block in the middle | the reply `svg` is accepted, and the extraction then raises `IndexError` | accept a reply that holds a `` ```svg `` block | not executed | Reader.AsWrittenLoopRaises | Reader.BookmarkSvgCorrected |
| website/book_manager.py:256-259 | the confirm button is read inside the submit branch, which holds only in the submit click's own rerun | submit an existing book, then click "confirm": nothing is processed | process the book on the confirm click | not executed | BookManager.AsWrittenNeverReprocesses | BookManager.ConfirmReprocesses |
| website/book_manager.py:291-302 | the confirmation flag is keyed by position and never cleared | books `a`, `b`: two clicks on the first delete `a`; one more click on the first position deletes `b` | a book is deleted only after two clicks on that book | not executed | BookManager.AsWrittenDeletesOnOneClick | BookManager.ConfirmByNameKeepsNext |
| reader/bilibili_auto_crawler.py:215-229 | with `ignoreerrors` set, a failed download returns a non-zero code instead of raising, and the code is not checked | a video whose download fails: `ydl.download` returns 1, and `video_1_info.json` is still written and returned as a downloaded file | record a video only when its download returned 0, as the docstring's "下载成功的视频文件路径列表" says | not executed | Bilibili.AsWrittenRecordsFailedDownload | Bilibili.CorrectedRecordsDownloads |
