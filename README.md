# Webtoon analyzer: a Dafny model

This project models the analysis core of `module/webtoon_analyzer.py` from the NWebtoon
downloader. `WebtoonAnalyzer` reads a title's article list from the comic site's paginated
list API. It learns the number of pages from the first page and requests every page
1..`total_pages`. It concatenates the pages' `articleList` entries into `EpisodeInfo`
records and sorts them by episode number. It then counts the *downloadable* episodes:
those before the first episode whose thumbnail is locked. A request that is not answered
with status 200 raises, and then no value is produced.

Modules:

- `Records` (`records.dfy`): the parsed page body (`ArticleListData`, `PageInfo`,
  `Article`), a list request and its response, and the `EpisodeInfo`, `WebtoonMetadata`
  and `WebtoonAnalysis` dataclasses. The exceptions become `FetchError` inside a `Result`.
- `Classifier` (`classifier.dfy`): the first-lock position and the downloadable prefix,
  with their characterisation.
- `EpisodeOrder` (`ordering.dfy`): the sort keyed on `no`. It is proved sorted, a
  permutation and stable, and any sorted, stable result is proved equal to it.
- `Pagination` (`pagination.dfy`): the page range and the concatenation of all pages'
  articles.
- `Analyzer` (`analyzer.dfy`): the analyzer's operations. The loops become methods proved
  against the functions above. `AllEpisodes` is the function that specifies
  `get_all_episodes`.

The network is an input. A metadata request is answered by an `HttpResponse` parameter.
Page requests are answered by `respond: ListRequest -> HttpResponse`. `asyncio.gather`
returns its results in task order, so it is modelled as a function over the task list.

A request can fail in two ways, and both end the analysis. It can be answered with a
status other than 200, which the analyzer turns into an exception (lines 79-80, 100-101).
It can also raise before the analyzer sees a status, or while decoding a 200 body (lines
61, 64, 66, 95, 97, 99). The model represents the second way as `NoAnswer`.

The code never removes duplicate episode numbers (lines 128-141), so neither does the
model (`Flatten`, `AllEpisodesSuccess`).

## Model

| member | source | states |
|---|---|---|
| `Classifier.FirstLockIndex` | module/webtoon_analyzer.py:157-165 | the scan stops at a position no larger than the list; every episode before it is unlocked; if it is inside the list, the episode there is locked |
| `Classifier.FirstLockIndexCharacterized` | module/webtoon_analyzer.py:157-165 | a position is the stopping point if and only if everything before it is unlocked and it is the end of the list or a locked episode |
| `Classifier.NoLockMeansAllDownloadable` | module/webtoon_analyzer.py:159-165 | with no locked episode, the whole list is downloadable |
| `Classifier.TailAfterFirstLockIgnored` | module/webtoon_analyzer.py:159-162 | replacing everything after the first locked episode with any other tail leaves the count and the prefix unchanged |
| `Classifier.DownloadablePrefix` | module/webtoon_analyzer.py:157-165 | the list the classifier returns: a prefix of the input, none of it locked, and followed in the input by a locked episode unless it is the whole input |
| `Analyzer.FindDownloadableEpisodes` | module/webtoon_analyzer.py:145-165 | the loop with `break` returns a count equal to the returned list's length; the list is a prefix of the input with no locked episode; the input episode at position `count`, if any, is locked; the list is the classifier's prefix |
| `Pagination.PageNumbers` | module/webtoon_analyzer.py:120 | `range(1, total_pages + 1)` has `total_pages` entries (none when it is 0 or negative), and entry i is page i + 1 |
| `Analyzer.PageTasks` | module/webtoon_analyzer.py:119-122 | the task loop creates exactly one task per page 1..`total_pages`, in increasing order |
| `Analyzer.GetEpisodeListPage` | module/webtoon_analyzer.py:82-101 | one request for this title and page; status 200 yields that response's body, any other status raises an error carrying the page and the status, and a request that raised by itself ends with an error (the model labels it with the page) |
| `Analyzer.Gather` | module/webtoon_analyzer.py:125 | succeeds if and only if every task's page is answered with 200, and then returns one body per task in task order; otherwise it raises the error of some page that was not, and no page list is produced |
| `Pagination.ToEpisode` | module/webtoon_analyzer.py:133-137 | the `EpisodeInfo` built from one article copies `no`, `subtitle` and `thumbnailLock`, so the article can be read back from it unchanged |
| `Pagination.PageEpisodes` | module/webtoon_analyzer.py:132-138 | one `EpisodeInfo` per article in `articleList` order, copying `no`, `subtitle` and `thumbnailLock` verbatim |
| `Analyzer.CollectEpisodes` | module/webtoon_analyzer.py:128-138 | the nested loops build exactly the concatenation, page after page, of every page's episodes |
| `Pagination.Flatten` | module/webtoon_analyzer.py:128-138 | the concatenation, page after page, of every page's episodes, with no deduplication: it has as many episodes as all pages have articles together |
| `Pagination.FlattenMembers` | module/webtoon_analyzer.py:128-138 | an episode is in the concatenation if and only if some page has an article it copies |
| `EpisodeOrder.Insert` | module/webtoon_analyzer.py:141 | inserting one episode adds exactly that episode (length and multiset) |
| `EpisodeOrder.InsertKeepsSorted` | module/webtoon_analyzer.py:141 | inserting into a list sorted by `no` keeps it sorted |
| `EpisodeOrder.SortByNo` | module/webtoon_analyzer.py:141 | the sorted list has the same length and the same multiset of episodes as its input, and is ascending by `no` |
| `EpisodeOrder.InsertKeepsOrderWithinNumbers` | module/webtoon_analyzer.py:141 | insertion puts the new episode ahead of every episode with the same number already there |
| `EpisodeOrder.SortByNoIsStable` | module/webtoon_analyzer.py:141 | for every number, the episodes carrying it keep their input order (the sort is stable) |
| `EpisodeOrder.StableSortIsUnique` | module/webtoon_analyzer.py:141 | any list that is sorted by `no` and keeps each number's episodes in input order equals `SortByNo`'s output, so any stable sort on `no` gives this list |
| `EpisodeOrder.SortedStableEqual` | module/webtoon_analyzer.py:141 | two lists sorted by `no` that agree number by number are equal |
| `Analyzer.FetchWebtoonMetadata` | module/webtoon_analyzer.py:51-80 | status 200 yields the title id and the body's `totalCount`, `pageSize` and `totalPages`; any other status raises an error carrying the status, a request that raised by itself ends with that exception, and neither yields metadata |
| `Analyzer.AllEpisodes` | module/webtoon_analyzer.py:103-143 | the value `get_all_episodes` computes: the metadata step, the pages 1..`total_pages` gathered in order, their concatenation sorted by `no`; a failed metadata request ends it with that request's error, and a list is produced only when the metadata and every page 1..`total_pages` are answered with 200 |
| `Analyzer.GetAllEpisodes` | module/webtoon_analyzer.py:103-143 | the result is the metadata step, then one request per page 1..`total_pages`, then the concatenation sorted by `no`; the tasks created are exactly pages 1..`total_pages`, or none when the metadata request fails |
| `Analyzer.AllEpisodesFailure` | module/webtoon_analyzer.py:103-125 | `get_all_episodes` fails if and only if the metadata request or some page request in 1..`total_pages` is not answered with 200 (another status, or the request raised); the error is the metadata request's, or else that of such a page (for a page request that raised, the model's label naming that page) |
| `Analyzer.AllEpisodesSuccess` | module/webtoon_analyzer.py:127-143 | on success the list is sorted by `no`, as long as all pages' article lists together, a permutation of their concatenation (no deduplication) and stable with respect to it |
| `Analyzer.AnalyzeWebtoon` | module/webtoon_analyzer.py:167-189 | a metadata request not answered with 200 raises its error; otherwise the result exists if and only if `get_all_episodes` succeeds, and its error is that of `get_all_episodes` when it fails; on success `total_count` is the metadata's total, `episodes` is the full sorted list (not the prefix), and `downloadable_count` is the classifier's count on it, between 0 and the list's length |

## Left out

- HTTP: `aiohttp` sessions, URLs, the base URL and the request headers (lines 49, 58-61, 92-95) are not modelled. Each request is a `ListRequest(titleId, page)` and its answer is an input.
- Response validation: `NWebtoonArticleListData.from_dict` (lines 66, 99) belongs to a library whose schema is not part of this model. An answered body is an already-parsed record, and a payload the schema rejects is represented, like a connection error or a time-out, by `NoAnswer`. Which of these exceptions was raised is not distinguished.
- Analyzer.Gather: when several pages fail, the source raises whichever exception `asyncio.gather` sees first, which depends on timing. The contract therefore says only that the error names some failing page (the definition picks the lowest one). The concurrency itself is not modelled, and neither is the fact that the other requests are still issued.
- Analyzer.GetAllEpisodes: `all_episodes.sort` sorts the local list in place with CPython's sort. The model assigns the local sequence the value of `SortByNo`, an insertion sort. `StableSortIsUnique` shows that every stable sort keyed on `no` gives that same list. The list is local to the function, so no alias can see the difference.
- Analyzer.AnalyzeWebtoon: the metadata is fetched twice, at line 175 and inside `get_all_episodes` at line 111. The two responses are separate inputs, and nothing relates them. `total_count` comes from the first response and the page count from the second. The prefix that the classifier returns at line 181 is discarded, as in the source.
- The `WebtoonAnalyzer` class holds only the title id and the base URL, and nothing updates them. Its operations are therefore module-level members that take the title id.
- The analyzer's own exception messages (lines 80 and 101) are reduced to `MetadataRequestFailed(status)` and `PageRequestFailed(page, status)`.
- Analyzer.GetEpisodeListPage: when a page request raises by itself (lines 95, 97, 99), the program ends with aiohttp's, the JSON decoder's or pydantic's own exception, which generally carries neither the page nor a status. `PageRequestRaised(page)` only records which task raised; the page is a label the model adds. Likewise `MetadataRequestRaised` stands for whatever the metadata request raised (lines 61, 64, 66). The same holds for the errors that `Gather`, `AllEpisodesFailure` and `AnalyzeWebtoon` pass on.
- Console output (lines 113-116), `test_webtoon`, `main` and the `__main__` entry (lines 193-274) are demonstration code. The percentage at line 241 is floating point.
- The `sys.path` change at line 9 is environment setup.
- Python integers are unbounded, and so are Dafny's `int`, so no width is modelled.
