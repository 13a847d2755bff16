/** The records exchanged by the webtoon analyzer: the parsed body of one page of the
    article-list API, the abstract HTTP response carrying it, and the analyzer's own
    EpisodeInfo, WebtoonMetadata and WebtoonAnalysis dataclasses. */
module Records {

  /** One entry of a page's `articleList`, reduced to the three fields the analyzer reads. */
  datatype Article = Article(no: int, subtitle: string, thumbnailLock: bool)

  /** The `pageInfo` block of an article-list page. */
  datatype PageInfo = PageInfo(pageSize: int, totalPages: int)

  /** A validated article-list page: `totalCount`, `pageInfo` and `articleList`. */
  datatype ArticleListData = ArticleListData(totalCount: int, pageInfo: PageInfo, articleList: seq<Article>)

  /** One request to the article-list endpoint: the title and the page number. */
  datatype ListRequest = ListRequest(titleId: int, page: int)

  /** What a request yields: an HTTP status with the body parsed from the JSON payload,
      or no usable answer at all, because the request itself raised (a connection error,
      a time-out, or a 200 answer whose body is not JSON or does not fit the page schema). */
  datatype HttpResponse =
    | Answered(status: int, body: ArticleListData)
    | NoAnswer
  {
    /** The answers the analyzer accepts: status 200 with a body. */
    predicate IsOk() {
      Answered? && status == HTTP_OK
    }
  }

  const HTTP_OK := 200

  /** One episode as the analyzer keeps it. */
  datatype EpisodeInfo = EpisodeInfo(no: int, subtitle: string, thumbnailLock: bool)

  datatype WebtoonMetadata = WebtoonMetadata(titleId: int, totalCount: int, pageSize: int, totalPages: int)

  datatype WebtoonAnalysis = WebtoonAnalysis(totalCount: int, downloadableCount: int, episodes: seq<EpisodeInfo>)

  /** The exceptions that end an analysis: the analyzer's own on a non-200 status, and
      those that a request raises before any status is known. The library exception in
      the second case carries no status and no page; the page in PageRequestRaised only
      records which task raised. */
  datatype FetchError =
    | MetadataRequestFailed(status: int)
    | MetadataRequestRaised
    | PageRequestFailed(page: int, status: int)
    | PageRequestRaised(page: int)

  /** The exception a failed metadata request ends with. */
  function MetadataFailure(response: HttpResponse): FetchError
  {
    if response.Answered? then MetadataRequestFailed(response.status) else MetadataRequestRaised
  }

  /** The exception a failed request for `page` ends with. */
  function PageFailure(page: int, response: HttpResponse): FetchError
  {
    if response.Answered? then PageRequestFailed(page, response.status) else PageRequestRaised(page)
  }

  /** Either a value or the exception that replaced it. */
  datatype Result<+T> = Success(value: T) | Failure(error: FetchError) {
    predicate IsFailure() {
      Failure?
    }

    function PropagateFailure<U>(): Result<U>
      requires Failure?
    {
      Failure(error)
    }

    function Extract(): T
      requires Success?
    {
      value
    }
  }
}
