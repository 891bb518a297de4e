/**
 * The infinite-scroll list (`components/article-list-client.tsx`): the shown
 * articles, the set of ids already loaded, the paging cursor and the
 * `hasMore`/loading flags. A load is split at its `await`: `BeginLoad` runs
 * the guard and raises the loading flags, `FinishLoad` merges the page that
 * came back (or the failure) and lowers them.
 */
module ArticleListClient {
  import opened Base
  import opened Ranking

  datatype ListArticle = ListArticle(id: string, title: string)

  /** `data`: a page of `/api/articles`. */
  datatype ArticlesResponse = ArticlesResponse(articles: seq<ListArticle>, nextCursor: Option<string>, hasMore: bool)

  /** What the fetch gave: a page, or a non-OK response or other exception. */
  datatype LoadResult = Loaded(data: ArticlesResponse) | LoadFailed

  /** The ids of a list of articles, as a set. */
  function Ids(s: seq<ListArticle>): set<string> {
    if s == [] then {} else Ids(s[..|s| - 1]) + {s[|s| - 1].id}
  }

  lemma {:induction false} IdsAppend(a: seq<ListArticle>, b: seq<ListArticle>)
    ensures Ids(a + b) == Ids(a) + Ids(b)
    decreases |b|
  {
    if b == [] {
      assert a + b == a;
    } else {
      assert (a + b)[..|a + b| - 1] == a + b[..|b| - 1];
      IdsAppend(a, b[..|b| - 1]);
    }
  }

  lemma {:induction false} IdsMembers(s: seq<ListArticle>, id: string)
    ensures id in Ids(s) <==> exists i :: 0 <= i < |s| && s[i].id == id
    decreases |s|
  {
    if s != [] {
      IdsMembers(s[..|s| - 1], id);
      if id in Ids(s[..|s| - 1]) {
        var i :| 0 <= i < |s| - 1 && s[..|s| - 1][i].id == id;
        assert s[i].id == id;
      }
    }
  }

  /** `!loadedArticleIds.current.has(article.id)` for a set of ids. */
  function NotLoadedFilter(loaded: set<string>): ListArticle -> bool {
    (a: ListArticle) => a.id !in loaded
  }

  /**
   * Lines 73-75: the batch items whose id was not loaded before the batch, in
   * batch order.
   */
  function FreshArticles(loaded: set<string>, batch: seq<ListArticle>): (r: seq<ListArticle>)
    ensures forall i :: 0 <= i < |r| ==> r[i] in batch && r[i].id !in loaded
    ensures forall i :: 0 <= i < |batch| && batch[i].id !in loaded ==> batch[i] in r
    ensures multiset(r) <= multiset(batch)
  {
    Filter(batch, NotLoadedFilter(loaded))
  }

  /**
   * The kept items stay in batch order and keep their repetitions: the fresh
   * items of two consecutive parts of a batch are those of each part in turn,
   * and a single item is kept exactly when its id was not loaded.
   */
  lemma FreshArticlesInOrder(loaded: set<string>, a: seq<ListArticle>, b: seq<ListArticle>, x: ListArticle)
    ensures FreshArticles(loaded, a + b) == FreshArticles(loaded, a) + FreshArticles(loaded, b)
    ensures FreshArticles(loaded, [x]) == if x.id !in loaded then [x] else []
  {
    FilterAppend(a, b, NotLoadedFilter(loaded));
    FilterOne(x, NotLoadedFilter(loaded));
  }

  /**
   * The filter consults the set as it was before the batch, so two items of
   * one batch sharing a new id are both appended.
   */
  lemma SameBatchDuplicatesKept(a: ListArticle)
    ensures FreshArticles({}, [a, a]) == [a, a]
  {
    assert [a, a][..1] == [a] && [a][..0] == [];
  }

  class ArticleList {
    var articles: seq<ListArticle>
    var loadedIds: set<string>
    var cursor: Option<string>
    var hasMore: bool
    var isLoading: bool
    var loadingRef: bool

    /** The loaded-id set is exactly the ids of the shown articles. */
    ghost predicate Valid()
      reads this
    {
      loadedIds == Ids(articles)
    }

    /** Lines 32-40. */
    constructor(initialArticles: seq<ListArticle>)
      ensures Valid()
      ensures articles == initialArticles && loadedIds == Ids(initialArticles)
      ensures cursor == if |initialArticles| > 0 then Some(initialArticles[|initialArticles| - 1].id) else None
      ensures hasMore && !isLoading && !loadingRef
    {
      articles := initialArticles;
      loadedIds := Ids(initialArticles);
      cursor := if |initialArticles| > 0 then Some(initialArticles[|initialArticles| - 1].id) else None;
      hasMore := true;
      isLoading := false;
      loadingRef := false;
    }

    /**
     * Lines 49-58: the guard, then the loading flags go up and the page after
     * `cursor` is requested. `!cursor` is true for `null` and for `""`.
     */
    method BeginLoad(inView: bool) returns (request: Option<string>)
      requires Valid()
      modifies this
      ensures Valid()
      ensures var blocked := !old(hasMore) || old(isLoading) || old(loadingRef) || !inView
                             || old(cursor).None? || old(cursor).value == "";
        && (blocked ==> request == None && isLoading == old(isLoading) && loadingRef == old(loadingRef))
        && (!blocked ==> request == old(cursor) && isLoading && loadingRef)
      ensures articles == old(articles) && loadedIds == old(loadedIds)
      ensures cursor == old(cursor) && hasMore == old(hasMore)
    {
      if !hasMore || isLoading || loadingRef || !inView || cursor.None? || cursor.value == "" {
        return None;
      }
      loadingRef := true;
      isLoading := true;
      request := cursor;
    }

    /**
     * Lines 60-92: merge the response. A failure changes nothing; a page is
     * merged as `Merge` says. The loading flags come down in every case.
     */
    method FinishLoad(result: LoadResult)
      requires Valid() && loadingRef
      modifies this
      ensures Valid()
      ensures !isLoading && !loadingRef
      ensures result.LoadFailed? ==>
                articles == old(articles) && loadedIds == old(loadedIds)
                && cursor == old(cursor) && hasMore == old(hasMore)
      ensures result.Loaded? ==>
                ListState(articles, loadedIds, cursor, hasMore)
                == Merge(ListState(old(articles), old(loadedIds), old(cursor), old(hasMore)), result.data)
    {
      if result.Loaded? {
        var before := ListState(articles, loadedIds, cursor, hasMore);
        var after := Merge(before, result.data);
        MergeKeepsIds(before, result.data);
        articles, loadedIds, cursor, hasMore := after.articles, after.loadedIds, after.cursor, after.hasMore;
      }
      isLoading := false;
      loadingRef := false;
    }
  }

  /** The part of the list's state a merge changes. */
  datatype ListState = ListState(articles: seq<ListArticle>, loadedIds: set<string>, cursor: Option<string>, hasMore: bool)

  /**
   * Lines 68-86: an empty page ends paging; otherwise the batch items not
   * loaded before have their ids added, and when there are none paging ends,
   * else they are appended and the cursor and `hasMore` come from the page.
   */
  function Merge(s: ListState, data: ArticlesResponse): ListState {
    if data.articles == [] then s.(hasMore := false)
    else
      var added := FreshArticles(s.loadedIds, data.articles);
      if added == [] then s.(loadedIds := s.loadedIds + Ids(added), hasMore := false)
      else ListState(s.articles + added, s.loadedIds + Ids(added), data.nextCursor, data.hasMore)
  }

  /** A merge keeps the loaded-id set equal to the ids shown. */
  lemma MergeKeepsIds(s: ListState, data: ArticlesResponse)
    requires s.loadedIds == Ids(s.articles)
    ensures Merge(s, data).loadedIds == Ids(Merge(s, data).articles)
  {
    if data.articles != [] {
      IdsAppend(s.articles, FreshArticles(s.loadedIds, data.articles));
    }
  }

  /**
   * A merge appends exactly the new batch items, and takes the cursor and
   * `hasMore` from the page only when something was appended; an empty page
   * only ends paging.
   */
  lemma MergeEffect(s: ListState, data: ArticlesResponse)
    ensures data.articles == [] ==> Merge(s, data) == s.(hasMore := false)
    ensures data.articles != [] ==>
              var added := FreshArticles(s.loadedIds, data.articles);
              && Merge(s, data).articles == s.articles + added
              && (added == [] ==> Merge(s, data).cursor == s.cursor && !Merge(s, data).hasMore)
              && (added != [] ==> Merge(s, data).cursor == data.nextCursor && Merge(s, data).hasMore == data.hasMore)
  {
    if data.articles != [] {
      var added := FreshArticles(s.loadedIds, data.articles);
      if added == [] {
        assert s.articles + added == s.articles;
      }
    }
  }

  /** After a merge, a batch item is shown exactly when its id was shown before or it is in the batch. */
  lemma MergeShowsBatch(shown: seq<ListArticle>, batch: seq<ListArticle>, id: string)
    ensures var merged := shown + FreshArticles(Ids(shown), batch);
      id in Ids(merged) <==> id in Ids(shown) || exists i :: 0 <= i < |batch| && batch[i].id == id
  {
    var added := FreshArticles(Ids(shown), batch);
    IdsAppend(shown, added);
    IdsMembers(added, id);
    IdsMembers(batch, id);
    if id !in Ids(shown) && exists i :: 0 <= i < |batch| && batch[i].id == id {
      var i :| 0 <= i < |batch| && batch[i].id == id;
      assert batch[i] in added;
      var j :| 0 <= j < |added| && added[j] == batch[i];
    }
  }
}
