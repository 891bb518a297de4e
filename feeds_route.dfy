/**
 * `POST /api/feeds`: a signed-in user subscribes to a feed URL; the parsed
 * feed becomes a feed record owned by the user with one article per item,
 * every missing or empty field replaced by its default.
 */
module FeedsRoute {
  import opened Base

  /** One parsed RSS item; an absent field is `None`. */
  datatype ParsedItem = ParsedItem(
    title: Option<string>, content: Option<string>, contentSnippet: Option<string>,
    link: Option<string>, pubDate: Option<string>)

  datatype ParsedFeed = ParsedFeed(title: Option<string>, items: seq<ParsedItem>)

  /** `item.pubDate ? new Date(item.pubDate) : new Date()`: the date text, or the time of the request. */
  datatype Published = FromPubDate(text: string) | AtRequest(now: int)

  datatype NewArticle = NewArticle(title: string, content: string, url: string, publishedAt: Published)

  datatype NewFeed = NewFeed(title: string, url: string, userId: string, articles: seq<NewArticle>)

  datatype FeedResponse =
    | Unauthorized   // 401
    | Failed         // 500
    | Created(feed: NewFeed)

  /** `x || d` on a string that may be absent: `undefined`, `null` and `""` are all falsy. */
  function Or(x: Option<string>, d: string): (r: string)
    ensures r == d <==> x.None? || x.value == "" || x.value == d
    ensures r != d ==> x == Some(r)
  {
    if x.Some? && x.value != "" then x.value else d
  }

  /** Lines 25-30: the article created for one item. */
  function ItemArticle(item: ParsedItem, now: int): (a: NewArticle)
    ensures a.title == Or(item.title, "Untitled") && a.title != ""
    ensures a.content == Or(item.content, Or(item.contentSnippet, ""))
    ensures a.url == Or(item.link, "")
    ensures a.publishedAt == if item.pubDate.Some? && item.pubDate.value != "" then FromPubDate(item.pubDate.value)
                             else AtRequest(now)
  {
    NewArticle(
      Or(item.title, "Untitled"),
      Or(item.content, Or(item.contentSnippet, "")),
      Or(item.link, ""),
      if item.pubDate.Some? && item.pubDate.value != "" then FromPubDate(item.pubDate.value) else AtRequest(now))
  }

  /** `feed.items.map(...)`. */
  function ItemArticles(items: seq<ParsedItem>, now: int): (r: seq<NewArticle>)
    ensures |r| == |items|
    ensures forall i :: 0 <= i < |items| ==> r[i] == ItemArticle(items[i], now)
  {
    seq(|items|, i requires 0 <= i < |items| => ItemArticle(items[i], now))
  }

  /**
   * Lines 5-41: `session` is the signed-in user's id; `parsed` is the parsed
   * feed, or `None` when reading the body or fetching and parsing the URL
   * throws; `now` is the request time.
   */
  function CreateFeed(session: Option<string>, url: string, parsed: Option<ParsedFeed>, now: int): (r: FeedResponse)
    ensures session.None? <==> r == Unauthorized
    ensures session.Some? && parsed.None? <==> r == Failed
    ensures r.Created? ==>
              && r.feed.title == Or(parsed.value.title, "Untitled Feed") && r.feed.title != ""
              && r.feed.url == url && r.feed.userId == session.value
              && r.feed.articles == ItemArticles(parsed.value.items, now)
              && |r.feed.articles| == |parsed.value.items|
              && forall i :: 0 <= i < |r.feed.articles| ==> r.feed.articles[i].title != ""
  {
    if session.None? then Unauthorized
    else if parsed.None? then Failed
    else Created(NewFeed(Or(parsed.value.title, "Untitled Feed"), url, session.value,
                         ItemArticles(parsed.value.items, now)))
  }

  /** An item with no fields at all becomes an untitled, empty article dated at the request. */
  lemma EmptyItemDefaults(now: int)
    ensures ItemArticle(ParsedItem(None, None, None, None, None), now) == NewArticle("Untitled", "", "", AtRequest(now))
  {
  }

  /** An empty title counts as missing, for the feed and for its items alike. */
  lemma EmptyTitlesDefault(session: string, url: string, items: seq<ParsedItem>, now: int, i: nat)
    requires i < |items| && items[i].title == Some("")
    ensures var r := CreateFeed(Some(session), url, Some(ParsedFeed(Some(""), items)), now);
      r.Created? && r.feed.title == "Untitled Feed" && r.feed.articles[i].title == "Untitled"
  {
  }

  /** An empty content falls through to the snippet. */
  lemma EmptyContentUsesSnippet(item: ParsedItem, now: int)
    requires item.content == Some("") && item.contentSnippet.Some? && item.contentSnippet.value != ""
    ensures ItemArticle(item, now).content == item.contentSnippet.value
  {
  }
}
