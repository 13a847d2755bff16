/** The WebtoonAnalyzer operations. An analyzer holds only its title id (and a fixed base
    URL), which never change, so its operations are members here that take the title id.
    Every HTTP exchange is an input: the response to a metadata request, and `respond`,
    which answers each article-list page request. */
module Analyzer {
  import opened Records
  import opened Classifier
  import opened EpisodeOrder
  import opened Pagination

  /** fetch_webtoon_metadata: the first page's answer decides; on 200 the metadata is
      read from the body's totals, otherwise the request raises. */
  function FetchWebtoonMetadata(titleId: int, response: HttpResponse): (r: Result<WebtoonMetadata>)
    ensures r.Success? <==> response.IsOk()
    ensures r.Success? ==>
              r.value == WebtoonMetadata(titleId, response.body.totalCount,
                                         response.body.pageInfo.pageSize,
                                         response.body.pageInfo.totalPages)
    ensures r.Failure? && response.Answered? ==> r.error == MetadataRequestFailed(response.status)
    ensures r.Failure? && response.NoAnswer? ==> r.error == MetadataRequestRaised
  {
    if response.IsOk() then
      Success(WebtoonMetadata(titleId, response.body.totalCount,
                              response.body.pageInfo.pageSize, response.body.pageInfo.totalPages))
    else
      Failure(MetadataFailure(response))
  }

  /** get_episode_list_page: requests one page of this title; on 200 its body is the
      result, otherwise the request raises, naming the page. */
  function GetEpisodeListPage(titleId: int, page: int, respond: ListRequest -> HttpResponse): (r: Result<ArticleListData>)
    ensures r.Success? <==> respond(ListRequest(titleId, page)).IsOk()
    ensures r.Success? ==> r.value == respond(ListRequest(titleId, page)).body
    ensures r.Failure? && respond(ListRequest(titleId, page)).Answered? ==>
              r.error == PageRequestFailed(page, respond(ListRequest(titleId, page)).status)
    ensures r.Failure? && respond(ListRequest(titleId, page)).NoAnswer? ==> r.error == PageRequestRaised(page)
  {
    var response := respond(ListRequest(titleId, page));
    if response.IsOk() then Success(response.body)
    else Failure(PageFailure(page, response))
  }

  /** asyncio.gather over one GetEpisodeListPage task per page: the results come back in
      task order; if any task raises, the whole gather raises and no page is returned. */
  function Gather(titleId: int, pages: seq<int>, respond: ListRequest -> HttpResponse): (r: Result<seq<ArticleListData>>)
    ensures r.Success? <==>
              forall i :: 0 <= i < |pages| ==> respond(ListRequest(titleId, pages[i])).IsOk()
    ensures r.Success? ==>
              |r.value| == |pages|
              && forall i :: 0 <= i < |pages| ==> r.value[i] == respond(ListRequest(titleId, pages[i])).body
    ensures r.Failure? ==>
              exists i :: 0 <= i < |pages| && !respond(ListRequest(titleId, pages[i])).IsOk()
                          && r.error == PageFailure(pages[i], respond(ListRequest(titleId, pages[i])))
  {
    if pages == [] then Success([])
    else
      match GetEpisodeListPage(titleId, pages[0], respond)
      case Failure(e) => Failure(e)
      case Success(first) =>
        match Gather(titleId, pages[1..], respond)
        case Failure(e) => Failure(e)
        case Success(rest) => Success([first] + rest)
  }

  /** The bodies of pages 1..totalPages of this title, in page order. */
  function PageBodies(titleId: int, totalPages: int, respond: ListRequest -> HttpResponse): seq<ArticleListData>
    requires forall p :: 1 <= p <= totalPages ==> respond(ListRequest(titleId, p)).Answered?
  {
    var pages := PageNumbers(totalPages);
    seq(|pages|, i requires 0 <= i < |pages| => respond(ListRequest(titleId, pages[i])).body)
  }

  /** What get_all_episodes computes: metadata, then every page 1..total_pages, then the
      concatenated articles sorted by number. It yields a list only when the metadata
      request and every page request are answered with 200, and a failed metadata request
      ends it before any page is requested. */
  function AllEpisodes(titleId: int, metadataResponse: HttpResponse, respond: ListRequest -> HttpResponse): (r: Result<seq<EpisodeInfo>>)
    ensures !metadataResponse.IsOk() ==> r == Failure(MetadataFailure(metadataResponse))
    ensures r.Success? ==>
              && metadataResponse.IsOk()
              && forall p :: 1 <= p <= metadataResponse.body.pageInfo.totalPages ==>
                               respond(ListRequest(titleId, p)).IsOk()
  {
    match FetchWebtoonMetadata(titleId, metadataResponse)
    case Failure(e) => Failure(e)
    case Success(metadata) =>
      match Gather(titleId, PageNumbers(metadata.totalPages), respond)
      case Failure(e) => Failure(e)
      case Success(bodies) =>
        GatherCoversEveryPage(titleId, metadata.totalPages, respond);
        Success(SortByNo(Flatten(bodies)))
  }

  /** A successful gather over the tasks for pages 1..n had every one of those pages
      answered with 200. */
  lemma GatherCoversEveryPage(titleId: int, n: int, respond: ListRequest -> HttpResponse)
    requires Gather(titleId, PageNumbers(n), respond).Success?
    ensures forall p :: 1 <= p <= n ==> respond(ListRequest(titleId, p)).IsOk()
  {
    var pages := PageNumbers(n);
    forall p | 1 <= p <= n ensures respond(ListRequest(titleId, p)).IsOk() {
      assert pages[p - 1] == p;
    }
  }

  /** get_all_episodes fails exactly when the metadata request or one of the page requests
      for 1..total_pages does not yield a 200 answer, and then it raises that request's
      error: the status it was answered with, or the exception the request raised. */
  lemma AllEpisodesFailure(titleId: int, metadataResponse: HttpResponse, respond: ListRequest -> HttpResponse)
    ensures var r := AllEpisodes(titleId, metadataResponse, respond);
            var n := if metadataResponse.Answered? then metadataResponse.body.pageInfo.totalPages else 0;
            && (r.Failure? <==>
                  !metadataResponse.IsOk()
                  || exists p :: 1 <= p <= n && !respond(ListRequest(titleId, p)).IsOk())
            && (r.Failure? && !metadataResponse.IsOk() ==>
                  r.error == MetadataFailure(metadataResponse))
            && (r.Failure? && metadataResponse.IsOk() ==>
                  exists p :: 1 <= p <= n && !respond(ListRequest(titleId, p)).IsOk()
                              && r.error == PageFailure(p, respond(ListRequest(titleId, p))))
  {
    if metadataResponse.IsOk() {
      var n := metadataResponse.body.pageInfo.totalPages;
      var pages := PageNumbers(n);
      var g := Gather(titleId, pages, respond);
      if exists p :: 1 <= p <= n && !respond(ListRequest(titleId, p)).IsOk() {
        var p :| 1 <= p <= n && !respond(ListRequest(titleId, p)).IsOk();
        assert pages[p - 1] == p;
      }
      if g.Failure? {
        var i :| 0 <= i < |pages| && !respond(ListRequest(titleId, pages[i])).IsOk()
                 && g.error == PageFailure(pages[i], respond(ListRequest(titleId, pages[i])));
        assert pages[i] == i + 1;
      }
    }
  }

  /** When get_all_episodes succeeds, its list is the episodes of pages 1..total_pages:
      as many as the pages hold together (nothing deduplicated), the same episodes with
      the same multiplicities, sorted ascending by number, and in page order among
      episodes that share a number. */
  lemma AllEpisodesSuccess(titleId: int, metadataResponse: HttpResponse, respond: ListRequest -> HttpResponse)
    requires AllEpisodes(titleId, metadataResponse, respond).Success?
    ensures var episodes := AllEpisodes(titleId, metadataResponse, respond).value;
            var bodies := PageBodies(titleId, metadataResponse.body.pageInfo.totalPages, respond);
            && SortedByNo(episodes)
            && |episodes| == TotalArticles(bodies)
            && multiset(episodes) == multiset(Flatten(bodies))
            && StableByNo(Flatten(bodies), episodes)
  {
    var n := metadataResponse.body.pageInfo.totalPages;
    var g := Gather(titleId, PageNumbers(n), respond);
    assert g.value == PageBodies(titleId, n, respond);
    SortByNoIsStable(Flatten(g.value));
  }

  /** The task list of get_all_episodes: one page number per page, 1..totalPages. */
  method PageTasks(totalPages: int) returns (pages: seq<int>)
    ensures pages == PageNumbers(totalPages)
  {
    pages := [];
    var page := 1;
    while page <= totalPages
      invariant 1 <= page
      invariant page - 1 <= (if totalPages > 0 then totalPages else 0)
      invariant pages == PageNumbers(page - 1)
    {
      pages := pages + [page];
      page := page + 1;
    }
  }

  /** The nested collection loop of get_all_episodes: every article of every page, in
      page order, as an EpisodeInfo. */
  method CollectEpisodes(responses: seq<ArticleListData>) returns (all: seq<EpisodeInfo>)
    ensures all == Flatten(responses)
  {
    all := [];
    var i := 0;
    while i < |responses|
      invariant 0 <= i <= |responses|
      invariant all == Flatten(responses[..i])
    {
      var articles := responses[i].articleList;
      var j := 0;
      while j < |articles|
        invariant 0 <= j <= |articles|
        invariant all == Flatten(responses[..i]) + PageEpisodes(articles[..j])
      {
        assert PageEpisodes(articles[..j + 1]) == PageEpisodes(articles[..j]) + [ToEpisode(articles[j])];
        all := all + [ToEpisode(articles[j])];
        j := j + 1;
      }
      assert articles[..j] == articles;
      FlattenSnoc(responses[..i], responses[i]);
      assert responses[..i + 1] == responses[..i] + [responses[i]];
      i := i + 1;
    }
    assert responses[..i] == responses;
  }

  /** get_all_episodes. Also returns the page numbers it created a request task for. */
  method GetAllEpisodes(titleId: int, metadataResponse: HttpResponse, respond: ListRequest -> HttpResponse)
    returns (r: Result<seq<EpisodeInfo>>, pages: seq<int>)
    ensures r == AllEpisodes(titleId, metadataResponse, respond)
    ensures metadataResponse.IsOk() ==> pages == PageNumbers(metadataResponse.body.pageInfo.totalPages)
    ensures !metadataResponse.IsOk() ==> pages == []
  {
    pages := [];
    var metadata :- FetchWebtoonMetadata(titleId, metadataResponse);
    pages := PageTasks(metadata.totalPages);
    var responses :- Gather(titleId, pages, respond);
    var all := CollectEpisodes(responses);
    all := SortByNo(all);
    r := Success(all);
  }

  /** find_downloadable_episodes: the episodes before the first locked one, and how many. */
  method FindDownloadableEpisodes(episodes: seq<EpisodeInfo>) returns (count: int, downloadable: seq<EpisodeInfo>)
    ensures count == |downloadable|
    ensures downloadable <= episodes
    ensures forall i :: 0 <= i < |downloadable| ==> !downloadable[i].thumbnailLock
    ensures count < |episodes| ==> episodes[count].thumbnailLock
    ensures downloadable == DownloadablePrefix(episodes)
  {
    downloadable := [];
    for i := 0 to |episodes|
      invariant downloadable == episodes[..i]
      invariant forall k :: 0 <= k < i ==> !episodes[k].thumbnailLock
    {
      if episodes[i].thumbnailLock {
        break;
      }
      downloadable := downloadable + [episodes[i]];
    }
    count := |downloadable|;
    FirstLockIndexCharacterized(episodes, count);
  }

  /** analyze_webtoon: the metadata's total, the full sorted episode list, and the number
      of downloadable episodes in it; raises whatever either fetch raises, whether a
      non-200 status or an exception of the request itself. The metadata is
      fetched twice (here and inside get_all_episodes), so the two responses are separate
      inputs. */
  method AnalyzeWebtoon(titleId: int, metadataResponse: HttpResponse, listMetadataResponse: HttpResponse,
                        respond: ListRequest -> HttpResponse)
    returns (r: Result<WebtoonAnalysis>)
    ensures !metadataResponse.IsOk() ==> r == Failure(MetadataFailure(metadataResponse))
    ensures metadataResponse.IsOk() && AllEpisodes(titleId, listMetadataResponse, respond).Failure? ==>
              r == Failure(AllEpisodes(titleId, listMetadataResponse, respond).error)
    ensures r.Success? <==>
              metadataResponse.IsOk() && AllEpisodes(titleId, listMetadataResponse, respond).Success?
    ensures r.Success? ==>
              && r.value.totalCount == metadataResponse.body.totalCount
              && r.value.episodes == AllEpisodes(titleId, listMetadataResponse, respond).value
              && r.value.downloadableCount == |DownloadablePrefix(r.value.episodes)|
              && 0 <= r.value.downloadableCount <= |r.value.episodes|
  {
    var metadata :- FetchWebtoonMetadata(titleId, metadataResponse);
    var allEpisodes, _ :- GetAllEpisodes(titleId, listMetadataResponse, respond);
    var downloadableCount, downloadableEpisodes := FindDownloadableEpisodes(allEpisodes);
    r := Success(WebtoonAnalysis(metadata.totalCount, downloadableCount, allEpisodes));
  }
}
