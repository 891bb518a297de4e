/**
 * The recommendation engine (`getRecommendedArticles`): the user's votes are
 * folded into per-topic and per-feed preference totals, every candidate
 * article gets a weighted score from its topics' mean preference, its feed's
 * preference and its age, and the articles scoring at least `MIN_SCORE` are
 * sorted by score or by date and cut to one page.
 *
 * `Math.tanh` is a parameter `tanh` (with `IsSquash` saying what the proofs
 * need of it), `Date.now()` is the parameter `now` in milliseconds, and the two
 * database reads are inputs that are either a list or `None` for a read that
 * threw.
 */
module ArticleService {
  import opened Base
  import opened Ranking

  // ----- RECOMMENDATION_SETTINGS and the page size -----

  const TopicWeight: real := 0.6
  const FeedWeight: real := 0.2
  const RecencyWeight: real := 0.2
  const MinScore: real := 0.2
  const UpvoteStrength: int := 1
  const DownvoteStrength: int := -2
  const DaysLookback: int := 30
  const ArticlesPerPage: nat := 10
  /** `take: ARTICLES_PER_PAGE * 3`. */
  const CandidateLimit: nat := ArticlesPerPage * 3
  /** `24 * 60 * 60 * 1000` and `1000 * 60 * 60 * 24`. */
  const MsPerDay: int := 86400000

  /** An article with its feed and topic names; `publishedAt` is in epoch milliseconds. */
  datatype Article = Article(id: string, feedId: string, feedOwner: string, publishedAt: int, topics: seq<string>)

  /** One of the user's votes with the article it is on. */
  datatype Vote = Vote(value: int, article: Article)

  /** A preference `Map<string, number>`. */
  type Prefs = map<string, int>

  /** `prefs.get(key) || 0`. */
  function Get(prefs: Prefs, key: string): int {
    if key in prefs then prefs[key] else 0
  }

  // ----- Preferences (lines 88-103) -----

  /** Lines 92-94: an upvote weighs `UPVOTE_STRENGTH`, any other value `DOWNVOTE_STRENGTH`. */
  function VoteWeight(value: int): int {
    if value == 1 then UpvoteStrength else DownvoteStrength
  }

  /** Lines 96-99: add `weight` to the preference of each topic, in order. */
  function AddTopics(prefs: Prefs, topics: seq<string>, weight: int): Prefs {
    if topics == [] then prefs
    else
      var m := AddTopics(prefs, topics[..|topics| - 1], weight);
      var t := topics[|topics| - 1];
      m[t := Get(m, t) + weight]
  }

  /** Lines 101-102: add `weight` to the preference of the feed. */
  function AddFeed(prefs: Prefs, feed: string, weight: int): Prefs {
    prefs[feed := Get(prefs, feed) + weight]
  }

  /** `topicPreferences` after the `forEach` over the given votes. */
  function TopicPreferences(votes: seq<Vote>): Prefs {
    if votes == [] then map[]
    else
      var v := votes[|votes| - 1];
      AddTopics(TopicPreferences(votes[..|votes| - 1]), v.article.topics, VoteWeight(v.value))
  }

  /** `feedPreferences` after the `forEach` over the given votes. */
  function FeedPreferences(votes: seq<Vote>): Prefs {
    if votes == [] then map[]
    else
      var v := votes[|votes| - 1];
      AddFeed(FeedPreferences(votes[..|votes| - 1]), v.article.feedId, VoteWeight(v.value))
  }

  /** Lines 88-103: both preference maps, built by the loops of the source. */
  method AccumulatePreferences(votes: seq<Vote>) returns (topicPrefs: Prefs, feedPrefs: Prefs)
    ensures topicPrefs == TopicPreferences(votes)
    ensures feedPrefs == FeedPreferences(votes)
  {
    topicPrefs := map[];
    feedPrefs := map[];
    var i := 0;
    while i < |votes|
      invariant 0 <= i <= |votes|
      invariant topicPrefs == TopicPreferences(votes[..i])
      invariant feedPrefs == FeedPreferences(votes[..i])
    {
      var vote := votes[i];
      var weight := if vote.value == 1 then UpvoteStrength else DownvoteStrength;
      var topics := vote.article.topics;
      ghost var before := topicPrefs;
      var j := 0;
      while j < |topics|
        invariant 0 <= j <= |topics|
        invariant topicPrefs == AddTopics(before, topics[..j], weight)
      {
        var currentScore := Get(topicPrefs, topics[j]);
        topicPrefs := topicPrefs[topics[j] := currentScore + weight];
        assert topics[..j + 1][..j] == topics[..j];
        j := j + 1;
      }
      assert topics[..j] == topics;
      var currentFeedScore := Get(feedPrefs, vote.article.feedId);
      feedPrefs := feedPrefs[vote.article.feedId := currentFeedScore + weight];
      assert votes[..i + 1][..i] == votes[..i];
      i := i + 1;
    }
    assert votes[..i] == votes;
  }

  // ----- What the preferences mean -----

  /** How often `x` occurs in `s`. */
  function Count(s: seq<string>, x: string): nat {
    if s == [] then 0
    else Count(s[..|s| - 1], x) + (if s[|s| - 1] == x then 1 else 0)
  }

  /** The topic total: every vote's weight once per occurrence of the topic on its article. */
  function TopicTotal(votes: seq<Vote>, name: string): int {
    if votes == [] then 0
    else
      var v := votes[|votes| - 1];
      TopicTotal(votes[..|votes| - 1], name) + VoteWeight(v.value) * Count(v.article.topics, name)
  }

  /** The feed total: the weights of the votes on that feed's articles. */
  function FeedTotal(votes: seq<Vote>, feed: string): int {
    if votes == [] then 0
    else
      var v := votes[|votes| - 1];
      FeedTotal(votes[..|votes| - 1], feed) + (if v.article.feedId == feed then VoteWeight(v.value) else 0)
  }

  /** Adding a weight to a list of topics moves each topic by the weight times its occurrences. */
  lemma {:induction false} AddTopicsEffect(prefs: Prefs, topics: seq<string>, weight: int, name: string)
    ensures Get(AddTopics(prefs, topics, weight), name) == Get(prefs, name) + weight * Count(topics, name)
    decreases |topics|
  {
    if topics != [] {
      var init := topics[..|topics| - 1];
      var last := topics[|topics| - 1];
      var m := AddTopics(prefs, init, weight);
      var c := Count(init, name);
      AddTopicsEffect(prefs, init, weight, name);
      assert AddTopics(prefs, topics, weight) == m[last := Get(m, last) + weight];
      if last == name {
        assert Count(topics, name) == c + 1;
        MulSucc(weight, c);
      } else {
        assert Count(topics, name) == c;
      }
    }
  }

  lemma MulSucc(w: int, c: int)
    ensures w * (c + 1) == w * c + w
  {
  }

  /** A topic's preference is its total over the votes; a topic no vote touched is 0. */
  lemma {:induction false} TopicPreferenceIsTotal(votes: seq<Vote>, name: string)
    ensures Get(TopicPreferences(votes), name) == TopicTotal(votes, name)
    decreases |votes|
  {
    if votes != [] {
      var v := votes[|votes| - 1];
      TopicPreferenceIsTotal(votes[..|votes| - 1], name);
      AddTopicsEffect(TopicPreferences(votes[..|votes| - 1]), v.article.topics, VoteWeight(v.value), name);
    }
  }

  /** A feed's preference is its total over the votes. */
  lemma {:induction false} FeedPreferenceIsTotal(votes: seq<Vote>, feed: string)
    ensures Get(FeedPreferences(votes), feed) == FeedTotal(votes, feed)
    decreases |votes|
  {
    if votes != [] {
      FeedPreferenceIsTotal(votes[..|votes| - 1], feed);
    }
  }

  /**
   * One more vote adds `+1` (upvote) or `-2` (any other value) to each topic of
   * its article per occurrence, and leaves the other topics alone.
   */
  lemma VoteMovesTopics(votes: seq<Vote>, v: Vote, name: string)
    ensures Get(TopicPreferences(votes + [v]), name)
         == Get(TopicPreferences(votes), name)
            + (if v.value == 1 then 1 else -2) * Count(v.article.topics, name)
  {
    assert (votes + [v])[..|votes|] == votes;
    TopicPreferenceIsTotal(votes + [v], name);
    TopicPreferenceIsTotal(votes, name);
  }

  /** One more vote adds its weight to its feed exactly once, however many topics it has. */
  lemma VoteMovesFeedOnce(votes: seq<Vote>, v: Vote, feed: string)
    ensures Get(FeedPreferences(votes + [v]), feed)
         == Get(FeedPreferences(votes), feed) + (if feed == v.article.feedId then VoteWeight(v.value) else 0)
  {
    assert (votes + [v])[..|votes|] == votes;
  }

  // ----- Scoring (lines 146-186) -----

  /** `topicScores.reduce((a, b) => a + b, 0)`: the topic lookups added up. */
  function SumPrefs(topics: seq<string>, prefs: Prefs): int {
    if topics == [] then 0
    else SumPrefs(topics[..|topics| - 1], prefs) + Get(prefs, topics[|topics| - 1])
  }

  /** Lines 148-153: the mean preference of the article's topics, 0 with no topics. */
  function TopicMean(topics: seq<string>, prefs: Prefs): real {
    if |topics| > 0 then SumPrefs(topics, prefs) as real / |topics| as real else 0.0
  }

  /**
   * What the proofs need of `Math.tanh`: it maps 0 to 0, stays strictly
   * between -1 and 1, and is strictly increasing.
   */
  ghost predicate IsSquash(tanh: real -> real) {
    && tanh(0.0) == 0.0
    && (forall x :: -1.0 < tanh(x) < 1.0)
    && (forall x, y :: x < y ==> tanh(x) < tanh(y))
  }

  /** Lines 160-161: the article's age in days. */
  function AgeInDays(now: int, publishedAt: int): real {
    (now - publishedAt) as real / MsPerDay as real
  }

  /** Line 162: 1 for an article published now, falling linearly to 0 at 30 days. */
  function RecencyScore(now: int, publishedAt: int): real {
    1.0 - AgeInDays(now, publishedAt) / DaysLookback as real
  }

  /** Lines 154-169: the weighted score of one candidate. */
  function ArticleScore(a: Article, topicPrefs: Prefs, feedPrefs: Prefs, now: int, tanh: real -> real): real {
    tanh(TopicMean(a.topics, topicPrefs)) * TopicWeight
    + tanh(Get(feedPrefs, a.feedId) as real) * FeedWeight
    + RecencyScore(now, a.publishedAt) * RecencyWeight
  }

  // ----- Candidates (lines 121-142) -----

  /** The query's `where`: the user's own feeds unless external feeds are included, and the lookback window. */
  predicate Eligible(a: Article, userId: string, includeExternalFeeds: bool, now: int) {
    && (includeExternalFeeds || a.feedOwner == userId)
    && a.publishedAt >= now - DaysLookback * MsPerDay
  }

  /**
   * The candidate query: the eligible articles in the store's order, at most
   * thirty of them.
   */
  function Candidates(store: seq<Article>, userId: string, includeExternalFeeds: bool, now: int): (r: seq<Article>)
    ensures |r| <= CandidateLimit
    ensures forall i :: 0 <= i < |r| ==> r[i] in store && Eligible(r[i], userId, includeExternalFeeds, now)
    ensures multiset(r) <= multiset(store)
    ensures |r| < CandidateLimit ==>
              forall i :: 0 <= i < |store| && Eligible(store[i], userId, includeExternalFeeds, now) ==> store[i] in r
  {
    var eligible := Filter(store, a => Eligible(a, userId, includeExternalFeeds, now));
    var r := Take(eligible, CandidateLimit);
    assert |r| < CandidateLimit ==> r == eligible;
    assert multiset(r) <= multiset(eligible) by {
      assert eligible == r + eligible[|r|..];
    }
    r
  }

  // ----- Filter, sort and page (lines 188-203) -----

  /** A candidate with its score (`{ article, score, publishedAt }`). */
  datatype Scored = Scored(article: Article, score: real)

  /** Line 146: every candidate paired with its score. */
  function Scores(candidates: seq<Article>, topicPrefs: Prefs, feedPrefs: Prefs, now: int, tanh: real -> real): (r: seq<Scored>)
    ensures |r| == |candidates|
    ensures forall i :: 0 <= i < |r| ==>
              r[i] == Scored(candidates[i], ArticleScore(candidates[i], topicPrefs, feedPrefs, now, tanh))
  {
    seq(|candidates|, i requires 0 <= i < |candidates| =>
      Scored(candidates[i], ArticleScore(candidates[i], topicPrefs, feedPrefs, now, tanh)))
  }

  /** Line 190: `item.score >= MIN_SCORE`. */
  predicate Recommendable(s: Scored) { s.score >= MinScore }

  function ScoreKey(s: Scored): real { s.score }

  function DateKey(s: Scored): real { s.article.publishedAt as real }

  /**
   * Lines 193-198: only the exact string `'recommended'` sorts by score; any
   * other value, `'date'` or `null` alike, sorts by publication date. An
   * omitted argument takes the default of line 45, `Some("recommended")`.
   */
  function SortKey(sortOrder: Option<string>): Scored -> real {
    if sortOrder == Some("recommended") then ScoreKey else DateKey
  }

  /** Lines 189-202: keep the recommendable, sort them stably, take a page. */
  function Page(scored: seq<Scored>, sortOrder: Option<string>): seq<Scored> {
    Take(SortDesc(Filter(scored, Recommendable), SortKey(sortOrder)), ArticlesPerPage)
  }

  /** A page holds at most ten recommendable candidates, each at most as often as scored, in key order. */
  lemma PageMembers(scored: seq<Scored>, sortOrder: Option<string>)
    ensures |Page(scored, sortOrder)| == Min(ArticlesPerPage, |Filter(scored, Recommendable)|)
    ensures forall i :: 0 <= i < |Page(scored, sortOrder)| ==>
              Page(scored, sortOrder)[i] in scored && Page(scored, sortOrder)[i].score >= MinScore
    ensures multiset(Page(scored, sortOrder)) <= multiset(scored)
    ensures SortedDesc(Page(scored, sortOrder), SortKey(sortOrder))
  {
    var key := SortKey(sortOrder);
    var kept := Filter(scored, Recommendable);
    var sorted := SortDesc(kept, key);
    var r := Page(scored, sortOrder);
    TakeSorted(sorted, ArticlesPerPage, key);
    forall i | 0 <= i < |r|
      ensures r[i] in scored && r[i].score >= MinScore
    {
      assert r[i] in multiset(r);
      assert r[i] in multiset(kept);
    }
  }

  /** A recommendable candidate left off the page lost to ten that rank at least as high. */
  lemma PageComplete(scored: seq<Scored>, sortOrder: Option<string>, x: Scored)
    requires x in scored && Recommendable(x) && x !in Page(scored, sortOrder)
    ensures |Page(scored, sortOrder)| == ArticlesPerPage
    ensures forall i :: 0 <= i < |Page(scored, sortOrder)| ==>
              SortKey(sortOrder)(Page(scored, sortOrder)[i]) >= SortKey(sortOrder)(x)
  {
    var key := SortKey(sortOrder);
    var kept := Filter(scored, Recommendable);
    var r := Page(scored, sortOrder);
    var j :| 0 <= j < |scored| && scored[j] == x;
    assert x in kept;
    TopN(kept, ArticlesPerPage, key, x);
    PrefixMembers(r, |r|);
  }

  /** Line 203: `map(item => item.article)`. */
  function Articles(s: seq<Scored>): (r: seq<Article>)
    ensures |r| == |s|
    ensures forall i :: 0 <= i < |s| ==> r[i] == s[i].article
  {
    seq(|s|, i requires 0 <= i < |s| => s[i].article)
  }

  /** Every page entry is a scored candidate, carrying that candidate's score. */
  lemma PageScores(candidates: seq<Article>, topicPrefs: Prefs, feedPrefs: Prefs, now: int, tanh: real -> real,
                   sortOrder: Option<string>)
    ensures forall i :: 0 <= i < |Page(Scores(candidates, topicPrefs, feedPrefs, now, tanh), sortOrder)| ==>
              var s := Page(Scores(candidates, topicPrefs, feedPrefs, now, tanh), sortOrder)[i];
              s.article in candidates && s.score == ArticleScore(s.article, topicPrefs, feedPrefs, now, tanh)
  {
    var scored := Scores(candidates, topicPrefs, feedPrefs, now, tanh);
    var page := Page(scored, sortOrder);
    PageMembers(scored, sortOrder);
    forall i | 0 <= i < |page|
      ensures page[i].article in candidates
      ensures page[i].score == ArticleScore(page[i].article, topicPrefs, feedPrefs, now, tanh)
    {
      ScoredMember(candidates, topicPrefs, feedPrefs, now, tanh, page[i]);
    }
  }

  /** A scored entry is a candidate with its own score. */
  lemma ScoredMember(candidates: seq<Article>, topicPrefs: Prefs, feedPrefs: Prefs, now: int, tanh: real -> real,
                     s: Scored)
    requires s in Scores(candidates, topicPrefs, feedPrefs, now, tanh)
    ensures s.article in candidates && s.score == ArticleScore(s.article, topicPrefs, feedPrefs, now, tanh)
  {
    var scored := Scores(candidates, topicPrefs, feedPrefs, now, tanh);
    var k :| 0 <= k < |scored| && scored[k] == s;
    assert s.article == candidates[k];
  }

  /** Lines 42-203 without the database: what `getRecommendedArticles` returns. */
  function Recommend(votes: seq<Vote>, store: seq<Article>, userId: string, includeExternalFeeds: bool,
                     sortOrder: Option<string>, now: int, tanh: real -> real): seq<Article> {
    var candidates := Candidates(store, userId, includeExternalFeeds, now);
    Articles(Page(Scores(candidates, TopicPreferences(votes), FeedPreferences(votes), now, tanh), sortOrder))
  }

  /**
   * At most ten articles come back, each an eligible article of the store
   * whose score reaches `MIN_SCORE`.
   */
  lemma RecommendedArticles(votes: seq<Vote>, store: seq<Article>, userId: string, includeExternalFeeds: bool,
                            sortOrder: Option<string>, now: int, tanh: real -> real)
    ensures var r := Recommend(votes, store, userId, includeExternalFeeds, sortOrder, now, tanh);
      && |r| <= ArticlesPerPage
      && (forall i :: 0 <= i < |r| ==> r[i] in store && Eligible(r[i], userId, includeExternalFeeds, now))
      && (forall i :: 0 <= i < |r| ==>
            ArticleScore(r[i], TopicPreferences(votes), FeedPreferences(votes), now, tanh) >= MinScore)
  {
    var topicPrefs := TopicPreferences(votes);
    var feedPrefs := FeedPreferences(votes);
    var candidates := Candidates(store, userId, includeExternalFeeds, now);
    var scored := Scores(candidates, topicPrefs, feedPrefs, now, tanh);
    PageMembers(scored, sortOrder);
    PageScores(candidates, topicPrefs, feedPrefs, now, tanh, sortOrder);
  }

  /**
   * With `'recommended'` the scores never increase down the page; with any
   * other sort order the publication dates never increase.
   */
  lemma RecommendedOrder(votes: seq<Vote>, store: seq<Article>, userId: string, includeExternalFeeds: bool,
                         sortOrder: Option<string>, now: int, tanh: real -> real)
    ensures var r := Recommend(votes, store, userId, includeExternalFeeds, sortOrder, now, tanh);
      && (sortOrder == Some("recommended") ==>
            forall i, j :: 0 <= i < j < |r| ==>
              ArticleScore(r[i], TopicPreferences(votes), FeedPreferences(votes), now, tanh)
              >= ArticleScore(r[j], TopicPreferences(votes), FeedPreferences(votes), now, tanh))
      && (sortOrder != Some("recommended") ==>
            forall i, j :: 0 <= i < j < |r| ==> r[i].publishedAt >= r[j].publishedAt)
  {
    var topicPrefs := TopicPreferences(votes);
    var feedPrefs := FeedPreferences(votes);
    var candidates := Candidates(store, userId, includeExternalFeeds, now);
    var scored := Scores(candidates, topicPrefs, feedPrefs, now, tanh);
    var page := Page(scored, sortOrder);
    PageMembers(scored, sortOrder);
    PageScores(candidates, topicPrefs, feedPrefs, now, tanh, sortOrder);
    assert forall i, j :: 0 <= i < j < |page| ==> SortKey(sortOrder)(page[i]) >= SortKey(sortOrder)(page[j]);
  }

  /**
   * `getRecommendedArticles(userId, includeExternalFeeds, sortOrder)`, with the
   * votes read and the article read given as their outcomes: `None` when that
   * read threw. Either failure is caught and yields `null`; otherwise the
   * (possibly empty) page is returned.
   */
  method GetRecommendedArticles(userId: string, includeExternalFeeds: bool, sortOrder: Option<string>,
                                userVotes: Option<seq<Vote>>, articleStore: Option<seq<Article>>,
                                now: int, tanh: real -> real)
    returns (r: Option<seq<Article>>)
    ensures r.None? <==> userVotes.None? || articleStore.None?
    ensures r.Some? ==>
              r.value == Recommend(userVotes.value, articleStore.value, userId, includeExternalFeeds, sortOrder, now, tanh)
  {
    if userVotes.None? {
      return None;
    }
    var topicPrefs, feedPrefs := AccumulatePreferences(userVotes.value);
    if articleStore.None? {
      return None;
    }
    var candidates := Candidates(articleStore.value, userId, includeExternalFeeds, now);
    var scored := Scores(candidates, topicPrefs, feedPrefs, now, tanh);
    var page := Page(scored, sortOrder);
    return Some(Articles(page));
  }

  // ----- Properties of the score -----

  /** A rational stand-in for `tanh`, x / (1 + |x|). */
  function RationalSquash(x: real): real {
    x / (1.0 + (if x < 0.0 then -x else x))
  }

  lemma RationalSquashMonotone(x: real, y: real)
    requires x < y
    ensures RationalSquash(x) < RationalSquash(y)
  {
    var ax := if x < 0.0 then -x else x;
    var ay := if y < 0.0 then -y else y;
    assert 1.0 + ax > 0.0 && 1.0 + ay > 0.0;
    assert x * (1.0 + ay) < y * (1.0 + ax) by {
      if x >= 0.0 {
        assert x * (1.0 + y) < y * (1.0 + x);
      } else if y < 0.0 {
        assert x * (1.0 - y) < y * (1.0 - x);
      } else {
        assert x * (1.0 + ay) < 0.0 <= y * (1.0 + ax);
      }
    }
    CrossMultiplied(x, 1.0 + ax, y, 1.0 + ay);
  }

  /** a / b < c / d when b, d > 0 and a * d < c * b. */
  lemma CrossMultiplied(a: real, b: real, c: real, d: real)
    requires b > 0.0 && d > 0.0
    requires a * d < c * b
    ensures a / b < c / d
  {
    var p := a / b;
    var q := c / d;
    assert a == p * b && c == q * d;
    assert p * (b * d) < q * (b * d) by {
      assert p * (b * d) == a * d && q * (b * d) == c * b;
    }
  }

  /** The assumptions made about `tanh` can all hold at once. */
  lemma SquashIsSatisfiable()
    ensures IsSquash(RationalSquash)
  {
    forall x
      ensures -1.0 < RationalSquash(x) < 1.0
    {
      var ax := if x < 0.0 then -x else x;
      assert -(1.0 + ax) < x < 1.0 + ax;
    }
    forall x, y | x < y
      ensures RationalSquash(x) < RationalSquash(y)
    {
      RationalSquashMonotone(x, y);
    }
  }

  /** Within the lookback window the recency score lies between 0 and 1. */
  lemma RecencyInRange(now: int, publishedAt: int)
    requires now - DaysLookback * MsPerDay <= publishedAt <= now
    ensures 0.0 <= RecencyScore(now, publishedAt) <= 1.0
  {
  }

  /** For an article no newer than `now`, the recency is in [0, 1] and the score lies in (-0.8, 1). */
  lemma ScoreInRange(a: Article, topicPrefs: Prefs, feedPrefs: Prefs, now: int, tanh: real -> real)
    requires IsSquash(tanh)
    requires now - DaysLookback * MsPerDay <= a.publishedAt <= now
    ensures -0.8 < ArticleScore(a, topicPrefs, feedPrefs, now, tanh) < 1.0
  {
    RecencyInRange(now, a.publishedAt);
    var t := tanh(TopicMean(a.topics, topicPrefs));
    var f := tanh(Get(feedPrefs, a.feedId) as real);
    assert -1.0 < t < 1.0 && -1.0 < f < 1.0;
  }

  /**
   * The query bounds the date from below only, so every candidate scores above
   * -0.8, but one dated after `now` has a recency above 1 and its score is not
   * bounded by 1.
   */
  lemma EligibleScoreBounds(a: Article, userId: string, includeExternalFeeds: bool,
                            topicPrefs: Prefs, feedPrefs: Prefs, now: int, tanh: real -> real)
    requires IsSquash(tanh)
    requires Eligible(a, userId, includeExternalFeeds, now)
    ensures -0.8 < ArticleScore(a, topicPrefs, feedPrefs, now, tanh)
    ensures a.publishedAt <= now ==> ArticleScore(a, topicPrefs, feedPrefs, now, tanh) < 1.0
    ensures a.publishedAt > now ==> RecencyScore(now, a.publishedAt) > 1.0
  {
    var t := tanh(TopicMean(a.topics, topicPrefs));
    var f := tanh(Get(feedPrefs, a.feedId) as real);
    assert -1.0 < t < 1.0 && -1.0 < f < 1.0;
    assert RecencyScore(now, a.publishedAt) >= 0.0;
    if a.publishedAt <= now {
      ScoreInRange(a, topicPrefs, feedPrefs, now, tanh);
    }
  }

  /** An article dated 150 days ahead passes the query and, with no votes, scores 1.2. */
  lemma FutureCandidateScoresAboveOne(a: Article, userId: string, now: int, tanh: real -> real)
    requires IsSquash(tanh)
    requires a.publishedAt == now + 150 * MsPerDay
    ensures Eligible(a, userId, true, now)
    ensures ArticleScore(a, TopicPreferences([]), FeedPreferences([]), now, tanh) == 1.2
  {
    NoPreferencesMeanZero(a.topics);
    assert Get(FeedPreferences([]), a.feedId) == 0;
    assert AgeInDays(now, a.publishedAt) == -150.0;
  }

  /** A higher mean topic preference gives a strictly higher score, all else equal. */
  lemma TopicPreferenceRaisesScore(a: Article, p: Prefs, q: Prefs, feedPrefs: Prefs, now: int, tanh: real -> real)
    requires IsSquash(tanh)
    requires TopicMean(a.topics, p) < TopicMean(a.topics, q)
    ensures ArticleScore(a, p, feedPrefs, now, tanh) < ArticleScore(a, q, feedPrefs, now, tanh)
  {
    assert tanh(TopicMean(a.topics, p)) < tanh(TopicMean(a.topics, q));
  }

  /** Of two articles with the same topics and feed, the newer one scores strictly higher. */
  lemma NewerScoresHigher(a: Article, b: Article, topicPrefs: Prefs, feedPrefs: Prefs, now: int, tanh: real -> real)
    requires a.topics == b.topics && a.feedId == b.feedId
    requires a.publishedAt > b.publishedAt
    ensures ArticleScore(a, topicPrefs, feedPrefs, now, tanh) > ArticleScore(b, topicPrefs, feedPrefs, now, tanh)
  {
    assert AgeInDays(now, a.publishedAt) < AgeInDays(now, b.publishedAt);
  }

  /** The lookups add up to between `|topics| * lo` and `|topics| * hi`. */
  lemma {:induction false} SumPrefsBounds(topics: seq<string>, prefs: Prefs, lo: int, hi: int)
    requires forall i :: 0 <= i < |topics| ==> lo <= Get(prefs, topics[i]) <= hi
    ensures |topics| * lo <= SumPrefs(topics, prefs) <= |topics| * hi
    decreases |topics|
  {
    if topics != [] {
      var n := |topics|;
      SumPrefsBounds(topics[..n - 1], prefs, lo, hi);
      assert n * lo == (n - 1) * lo + lo && n * hi == (n - 1) * hi + hi;
    }
  }

  /** The topic score is a mean: it lies between the least and the greatest lookup. */
  lemma TopicMeanBounds(topics: seq<string>, prefs: Prefs, lo: int, hi: int)
    requires |topics| > 0
    requires forall i :: 0 <= i < |topics| ==> lo <= Get(prefs, topics[i]) <= hi
    ensures lo as real <= TopicMean(topics, prefs) <= hi as real
  {
    SumPrefsBounds(topics, prefs, lo, hi);
    MeanBetween(SumPrefs(topics, prefs) as real, |topics| as real, lo as real, hi as real);
  }

  /** A total between n * lo and n * hi has its mean between lo and hi. */
  lemma MeanBetween(s: real, n: real, lo: real, hi: real)
    requires n > 0.0 && n * lo <= s <= n * hi
    ensures lo <= s / n <= hi
  {
    assert (s / n) * n == s;
  }

  /** Unknown topics count as 0: with no preferences at all the topic score is 0. */
  lemma {:induction false} NoPreferencesMeanZero(topics: seq<string>)
    ensures SumPrefs(topics, map[]) == 0
    ensures TopicMean(topics, map[]) == 0.0
    decreases |topics|
  {
    if topics != [] {
      NoPreferencesMeanZero(topics[..|topics| - 1]);
    }
  }

  /**
   * With no votes, only recency is left, weighted 0.2, so only an article
   * published at or after `now` reaches `MIN_SCORE`: a user without votes gets
   * an empty page for every past article.
   */
  lemma NoVotesNoRecommendations(a: Article, now: int, tanh: real -> real)
    requires IsSquash(tanh)
    ensures ArticleScore(a, TopicPreferences([]), FeedPreferences([]), now, tanh) >= MinScore
        <==> a.publishedAt >= now
  {
    NoPreferencesMeanZero(a.topics);
    assert Get(FeedPreferences([]), a.feedId) == 0;
  }
}
