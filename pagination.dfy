/** Page enumeration and aggregation: the page numbers `range(1, total_pages + 1)`, and
    the concatenation of every page's `articleList` as EpisodeInfo records. */
module Pagination {
  import opened Records

  /** The page numbers 1, 2, ..., totalPages; none when totalPages is 0 or negative. */
  function PageNumbers(totalPages: int): (pages: seq<int>)
    ensures |pages| == if totalPages > 0 then totalPages else 0
    ensures forall i :: 0 <= i < |pages| ==> pages[i] == i + 1
  {
    if totalPages <= 0 then [] else PageNumbers(totalPages - 1) + [totalPages]
  }

  /** The EpisodeInfo built from one article. */
  function ToEpisode(a: Article): (e: EpisodeInfo)
    ensures Article(e.no, e.subtitle, e.thumbnailLock) == a
  {
    EpisodeInfo(a.no, a.subtitle, a.thumbnailLock)
  }

  /** The episodes of one page, in `articleList` order. */
  function PageEpisodes(articles: seq<Article>): (r: seq<EpisodeInfo>)
    ensures |r| == |articles|
    ensures forall j :: 0 <= j < |r| ==>
              r[j].no == articles[j].no && r[j].subtitle == articles[j].subtitle
              && r[j].thumbnailLock == articles[j].thumbnailLock
  {
    seq(|articles|, j requires 0 <= j < |articles| => ToEpisode(articles[j]))
  }

  /** The episodes of all pages, page after page, without removing duplicates: there are
      as many as the pages have articles together. */
  function Flatten(pages: seq<ArticleListData>): (r: seq<EpisodeInfo>)
    ensures |r| == TotalArticles(pages)
  {
    if pages == [] then []
    else Flatten(pages[..|pages| - 1]) + PageEpisodes(pages[|pages| - 1].articleList)
  }

  /** The number of articles over all pages. */
  function TotalArticles(pages: seq<ArticleListData>): nat
  {
    if pages == [] then 0
    else TotalArticles(pages[..|pages| - 1]) + |pages[|pages| - 1].articleList|
  }

  /** An episode is in the aggregate exactly when some page has an article it copies. */
  lemma {:induction false} FlattenMembers(pages: seq<ArticleListData>, e: EpisodeInfo)
    ensures e in Flatten(pages) <==>
              exists p, j :: 0 <= p < |pages| && 0 <= j < |pages[p].articleList|
                             && e == ToEpisode(pages[p].articleList[j])
  {
    if pages != [] {
      var init, last := pages[..|pages| - 1], pages[|pages| - 1];
      FlattenMembers(init, e);
      var tail := PageEpisodes(last.articleList);
      assert e in Flatten(pages) <==> e in Flatten(init) || e in tail;
      if e in tail {
        var j :| 0 <= j < |tail| && tail[j] == e;
        assert e == ToEpisode(pages[|pages| - 1].articleList[j]);
      }
      if exists p, j :: 0 <= p < |pages| && 0 <= j < |pages[p].articleList|
                        && e == ToEpisode(pages[p].articleList[j]) {
        var p, j :| 0 <= p < |pages| && 0 <= j < |pages[p].articleList|
                    && e == ToEpisode(pages[p].articleList[j]);
        if p < |pages| - 1 {
          assert pages[p] == init[p];
        } else {
          assert tail[j] == e;
        }
      }
    }
  }

  /** Appending one page extends the aggregate by exactly that page's episodes. */
  lemma FlattenSnoc(pages: seq<ArticleListData>, page: ArticleListData)
    ensures Flatten(pages + [page]) == Flatten(pages) + PageEpisodes(page.articleList)
  {
  }
}
