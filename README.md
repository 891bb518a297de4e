# MindFeed recommendation core, modelled in Dafny

MindFeed is an RSS reader. Users subscribe to feeds, read articles in an
in-app reader and vote on them. A recommendation page ranks recent articles
by how well they match the user's votes. This project models the logic
behind that page:

- the keyword topic extractor, in its current form (`lib/topic-extractor.ts`)
  and its older form (`lib/topic-extractor.mjs`);
- the recommendation engine (`getRecommendedArticles` in `lib/article-service.ts`):
  votes become topic and feed preferences, candidates are scored from those
  preferences and their age, then filtered, sorted and cut to a page;
- the routes that feed it: casting a vote, adding interaction scores,
  creating a feed from a parsed RSS document;
- the access rules: the middleware's redirect decision and the
  `authorized` callback;
- the client state around it: the article card's optimistic vote and its
  reading timer, the infinite-scroll list's merge of new pages, and the
  recommendation settings store.

Pure logic is written as functions. Code that loops or mutates state keeps
that form. The topic extractor's passes, the preference accumulation and the
legacy extractor are methods with loops, proved against the functions that
specify them. Stores and components whose fields change are classes:
`VoteStore`, `ScoreStore`, `CardState`, `ArticleList` and `Settings`.

Some things are parameters rather than modelled:

- `Date.now()` is a parameter `now`, in milliseconds.
- `Math.tanh` is a parameter `tanh`. The ghost predicate `IsSquash` says what
  the proofs need of it: it maps 0 to 0, stays strictly between -1 and 1, and
  is strictly increasing. `SquashIsSatisfiable` shows a function with these
  properties exists.
- Each database read becomes an input. A read either yields its rows or
  `None`, which stands for a read that threw.
- Scores are exact reals.

JavaScript behaviour is written out where it decides a branch:

- `0`, `null` and `""` are falsy for `!readingStartTime`, `!cursor` and `token.exp &&`.
- `||` falls back to its default for a missing value and for `""`.
- `Map` insertion order is kept.
- `split(/\W+/)` yields empty tokens at the ends.
- `sortOrder` may be `null`, which sorts by date. An omitted `sortOrder` is
  `Some("recommended")` in the model, and an omitted `includeExternalFeeds`
  is `false`, as the parameter defaults of `getRecommendedArticles` say.

The code behaves as follows in places where a reader might expect otherwise, and the model follows it:

- There is no relaxed `MIN_SCORE / 2` threshold.
- A user with no votes gets no "no history yet" sentinel. They get the
  ordinary filtered page, which `NoVotesNoRecommendations` characterises.
- Recency is the linear `1 - age/30` score, always applied.
- `null` comes only from the `catch` around a failed read.
- Ties among topics are broken by insertion order, not alphabetically.

## Model

| member | source | states |
|---|---|---|
| Text.Lower | lib/topic-extractor.ts:75 | the lowered text has the same length, and each character is the ASCII-lowered input character |
| Text.SplitWords | lib/topic-extractor.ts:76 | `split(/\W+/)` gives at least one token, and every token is made of word characters only |
| Text.SplitWordsCounts | lib/topic-extractor.ts:76 | for every input, the tokens written one after another are exactly its word characters in order, and there is one token more than there are maximal runs of non-word characters |
| Text.SplitWordsJoin | lib/topic-extractor.ts:76 | splitting word-only tokens joined by single spaces gives those tokens back, when only the first and last may be empty |
| Text.SplitWordsTrailing | lib/topic-extractor.mjs:11-12 | a text ending in a non-word character ends with an empty token |
| Text.SplitWordsWord | lib/topic-extractor.ts:83 | a text of word characters splits into itself alone |
| Text.SplitWordsWordThen | lib/topic-extractor.ts:76 | a word followed by a non-word character splits into the word and an empty token |
| Text.IncludesOnlyWords | lib/topic-extractor.ts:88-95 | a phrase containing a space is not found in a text made only of word characters |
| Ranking.Filter | lib/article-service.ts:189-190 | the kept items are items of the input that satisfy the test, every item that satisfies it is kept, and no item is kept more often than it occurs |
| Ranking.FilterOne | lib/article-service.ts:189-190 | a one-item list keeps its item exactly when the test holds |
| Ranking.FilterAppend | lib/article-service.ts:189-190 | filtering a concatenation is filtering each part, in order; with `FilterOne` this fixes the result, order and repetitions included |
| Ranking.SortDesc | lib/article-service.ts:193-198 | the result is sorted by non-increasing key and is a permutation of the input |
| Ranking.SortDescStable | lib/article-service.ts:193-198 | items with equal keys keep their input order, as `Array.prototype.sort` guarantees |
| Ranking.Take | lib/article-service.ts:202 | `slice(0, n)`: the first min(n, length) items |
| Ranking.TopN | lib/topic-extractor.ts:145-146 | an item sorted away by the cut is outranked by a full page of items whose keys are at least its own |
| TopicTally.Add | lib/topic-extractor.ts:91 | `set(name, (get(name) \|\| 0) + d)`: only that entry moves, by d; a new key is appended to the key order, which stays duplicate-free |
| TopicTally.Entries | lib/topic-extractor.ts:143 | `Array.from(scores.entries())`: the entries in insertion order with their totals |
| TopicTally.KeywordsOfAt | lib/topic-extractor.ts:6-72 | with distinct topic names, looking up the i-th name gives the i-th keyword list |
| TopicTally.EntriesDistinct | lib/topic-extractor.ts:143 | the entries carry distinct labels |
| TopicExtractor.TopicKeywordsDistinct | lib/topic-extractor.ts:6-72 | the twelve topic names of the table are distinct |
| TopicExtractor.KeywordPointsFirstMatch | lib/topic-extractor.ts:105-131 | a word earns points for a topic from the first keyword that awards any (exact, else the partial match), and nothing when none does |
| TopicExtractor.PhrasePass | lib/topic-extractor.ts:85-98 | the phrase loop leaves every topic at its phrase points (4 per phrase in the title, 2 per phrase in the content), and the tally's key order is the topics that scored, in table order |
| TopicExtractor.AddPhrases | lib/topic-extractor.ts:86-97 | one topic's keyword loop adds its phrase points to that topic only, and appends the topic to the key order when it scores |
| TopicExtractor.ProcessWord | lib/topic-extractor.ts:102-134 | one word moves each topic by exactly its keyword points, breaking at the first awarding keyword |
| TopicExtractor.MatchKeywords | lib/topic-extractor.ts:105-131 | the keyword loop of one topic adds exactly that word's keyword points to the topic and changes no other topic |
| TopicExtractor.ProcessWords | lib/topic-extractor.ts:137-140 | a pass over the words adds each topic's points for all of them |
| TopicExtractor.RankTopics | lib/topic-extractor.ts:143-147 | at most three distinct labels, each with at least 2 points, in non-increasing order of points |
| TopicExtractor.RankTopicsComplete | lib/topic-extractor.ts:143-147 | a qualifying topic left out lost to three labels with at least its points |
| TopicExtractor.ExtractTopicsWith | lib/topic-extractor.ts:74-148 | the labels are the ranking of the three passes' tally, and each label's total is its phrase, title and content points |
| TopicExtractor.ExtractTopics | lib/topic-extractor.ts:74-148 | the same for the built-in keyword table |
| TopicExtractor.ShortWordsScoreNothing | lib/topic-extractor.ts:103 | words shorter than 3 characters earn nothing |
| TopicExtractor.PhrasesSkippedInWordPass | lib/topic-extractor.ts:107 | keywords with a space never score in the word passes |
| TopicExtractor.PhrasePassOnlyPhrases | lib/topic-extractor.ts:88 | keywords without a space never score in the phrase pass |
| TopicExtractor.ShortWordExactOnly | lib/topic-extractor.ts:119 | a word shorter than 6 characters scores only by an exact match |
| TopicExtractor.NoPhraseInWord | lib/topic-extractor.ts:86-99 | in a text of word characters no phrase is found, so the phrase pass adds nothing |
| TopicExtractor.OneWordTitle | lib/topic-extractor.ts:75-83 | a one-word title with no content scores the word's title points plus its content points |
| TopicExtractor.TitleWordScoresThree | lib/topic-extractor.ts:110-116 | a title of one 3-to-5-letter keyword of a topic, and no content, scores 3 for that topic |
| TopicExtractor.CloudIsTechnology | lib/topic-extractor.ts:7-11 | the title "cloud" alone scores 3 for technology |
| TopicExtractor.FirstMatchWins | lib/topic-extractor.ts:110-130 | the title word "environmental", itself a keyword of the environment topic, scores 1 through its partial match with the earlier keyword "environment", not 2 for its own exact match |
| LegacyTopicExtractor.CountWord | lib/topic-extractor.mjs:16-24 | one token adds 1 to every topic with a keyword it includes or that includes it |
| LegacyTopicExtractor.ExtractTopicsWith | lib/topic-extractor.mjs:10-29 | the labels are distinct, and a topic is a label exactly when at least one token matches one of its keywords |
| LegacyTopicExtractor.ExtractTopics | lib/topic-extractor.mjs:1-29 | the same for the one-topic legacy table |
| LegacyTopicExtractor.KeptLabels | lib/topic-extractor.mjs:26-28 | the labels of the positive entries are exactly the names with a positive count |
| LegacyTopicExtractor.EmptyTokenMatches | lib/topic-extractor.mjs:19 | the empty token is included in every keyword, so it matches every non-empty list |
| LegacyTopicExtractor.OneMatchCounts | lib/topic-extractor.mjs:17-19 | a single matching token makes the count positive |
| LegacyTopicExtractor.EmptyContentMatchesAll | lib/topic-extractor.mjs:11-12 | a title and an empty content yield an empty token, so every topic is a label |
| ArticleService.AccumulatePreferences | lib/article-service.ts:88-103 | the two nested loops build exactly the topic and feed preference maps |
| ArticleService.AddTopicsEffect | lib/article-service.ts:96-99 | each topic moves by the weight times the number of times it occurs |
| ArticleService.TopicPreferenceIsTotal | lib/article-service.ts:91-99 | a topic's preference is the sum, over votes, of weight (+1 up, -2 down) times its occurrences; untouched topics are 0 |
| ArticleService.FeedPreferenceIsTotal | lib/article-service.ts:101-102 | a feed's preference is the sum of the weights of the votes on its articles |
| ArticleService.VoteMovesTopics | lib/article-service.ts:92-99 | one more vote moves each topic by +1 or -2 per occurrence |
| ArticleService.VoteMovesFeedOnce | lib/article-service.ts:101-102 | one more vote moves its feed once, whatever its topics |
| ArticleService.Candidates | lib/article-service.ts:121-142 | at most 30 candidates, all eligible articles of the store (own feed unless external feeds are included, within 30 days); when fewer than 30 come back, every eligible article is among them |
| ArticleService.Scores | lib/article-service.ts:146-186 | one scored entry per candidate, in order, carrying that candidate's score |
| ArticleService.PageMembers | lib/article-service.ts:189-202 | the page has min(10, number recommendable) entries, all scored candidates with score at least 0.2, sorted by the chosen key |
| ArticleService.PageComplete | lib/article-service.ts:189-202 | a recommendable candidate left off the page lost to a full page of ten ranking at least as high |
| ArticleService.Articles | lib/article-service.ts:203 | `map(item => item.article)` keeps length and order |
| ArticleService.PageScores | lib/article-service.ts:146-203 | every page entry is a candidate with its own score |
| ArticleService.RecommendedArticles | lib/article-service.ts:121-203 | at most ten articles come back, each an eligible article of the store scoring at least 0.2 |
| ArticleService.RecommendedOrder | lib/article-service.ts:193-198 | with 'recommended' the scores never increase down the page; with 'date' or null the publication dates never increase |
| ArticleService.GetRecommendedArticles | lib/article-service.ts:42-208 | `null` exactly when a read threw; otherwise the recommended page |
| ArticleService.SquashIsSatisfiable | lib/article-service.ts:154 | a function meeting what is assumed of `Math.tanh` exists |
| ArticleService.RecencyInRange | lib/article-service.ts:160-162 | inside the lookback window the recency score is in [0, 1] |
| ArticleService.ScoreInRange | lib/article-service.ts:154-169 | the final score of a candidate published no later than `now` lies strictly between -0.8 and 1 |
| ArticleService.EligibleScoreBounds | lib/article-service.ts:128-169 | every candidate of the query scores above -0.8; one published no later than `now` scores below 1; one dated after `now` has a recency above 1 |
| ArticleService.FutureCandidateScoresAboveOne | lib/article-service.ts:128-169 | an article dated 150 days ahead passes the query and, with no votes, scores 1.2 |
| ArticleService.TopicPreferenceRaisesScore | lib/article-service.ts:148-169 | a higher mean topic preference gives a strictly higher score |
| ArticleService.NewerScoresHigher | lib/article-service.ts:160-169 | of two articles alike but for date, the newer scores strictly higher |
| ArticleService.SumPrefsBounds | lib/article-service.ts:148-152 | the summed lookups lie between the count times the lowest and the highest preference |
| ArticleService.TopicMeanBounds | lib/article-service.ts:148-153 | the mean topic preference lies between the lowest and highest preference of its topics |
| ArticleService.NoPreferencesMeanZero | lib/article-service.ts:148-153 | with no preferences the topic sum and mean are 0 |
| ArticleService.NoVotesNoRecommendations | lib/article-service.ts:146-190 | with no votes an article reaches 0.2 exactly when it is not older than now |
| VoteRoute.RejectedLeavesVotes | app/api/vote/route.ts:8-18 | no session gives 401 and a value outside {1, 0, -1} gives 400, with the table unchanged |
| VoteRoute.VoteEffect | app/api/vote/route.ts:20-48 | when the write does not fail, 0 clears the key and +1/-1 sets it; no other key changes and every stored vote stays +1 or -1 |
| VoteRoute.FailedWrites | app/api/vote/route.ts:21-54 | a delete that throws is caught and answers `null` with the table unchanged; an upsert that throws answers 500 with the table unchanged |
| VoteRoute.VoteIdempotent | app/api/vote/route.ts:33-48 | repeating a +1/-1 vote changes nothing further and returns the same record |
| VoteRoute.ClearIdempotent | app/api/vote/route.ts:21-30 | clearing twice equals clearing once, and the second answer is `null` |
| VoteRoute.OtherUsersUntouched | app/api/vote/route.ts:21-48 | any run of one user's requests leaves other users' votes as they were and all votes in {+1, -1} |
| VoteRoute.VoteStore.Post | app/api/vote/route.ts:5-56 | the handler's new table and response are those of `Vote`, and the table stays valid |
| ArticleScoreRoute.IncrementTable | app/api/article-score/route.ts:6-38 | vote adds 10 times the value, view adds 1, scroll a tenth, readTime a twentieth, anything else 0 |
| ArticleScoreRoute.PostEffect | app/api/article-score/route.ts:16-58 | no session answers 401 and an unreadable body 500, both with the table unchanged; otherwise only the request's key moves, by the increment, created if missing, and the answer is the stored record |
| ArticleScoreRoute.ScoresAreSums | app/api/article-score/route.ts:40-58 | after a run of requests a user's score for an article is its old score plus the increments sent for it; other users are untouched |
| ArticleScoreRoute.ScoreStore.HandlePost | app/api/article-score/route.ts:13-65 | the handler's new table and response are those of `Post` |
| FeedsRoute.Or | app/api/feeds/route.ts:21 | `x \|\| d` is d exactly when x is missing, empty or d, and x otherwise |
| FeedsRoute.ItemArticle | app/api/feeds/route.ts:25-30 | the title is the item's own or 'Untitled' when it is missing or empty, so never empty; content falls back to the snippet and then to empty; the url is the link or empty; the date is the item's `pubDate` or else the request time |
| FeedsRoute.ItemArticles | app/api/feeds/route.ts:25-30 | one article per item, in order |
| FeedsRoute.CreateFeed | app/api/feeds/route.ts:8-39 | 401 without a session, 500 when parsing fails, else a feed of the user and url titled with its own title or 'Untitled Feed', whose articles are the items' articles in item order |
| FeedsRoute.EmptyTitlesDefault | app/api/feeds/route.ts:21-26 | an empty feed title and an empty item title count as missing: 'Untitled Feed' and 'Untitled' |
| FeedsRoute.EmptyItemDefaults | app/api/feeds/route.ts:26-29 | an item with no fields becomes an 'Untitled' article with empty content and link, dated by the request |
| FeedsRoute.EmptyContentUsesSnippet | app/api/feeds/route.ts:27 | empty content falls back to the snippet |
| Middleware.Decide | middleware.ts:5-52 | a redirect to login happens exactly for a secure route without a token or with an expired one, carrying the request URL back |
| Middleware.SecurePrefixes | middleware.ts:13-22 | every path starting with /feeds, /recommended or /popular is secure |
| Middleware.OpenPages | middleware.ts:13-22 | /login and / are not secure |
| Middleware.OpenRoutesProceed | middleware.ts:25-51 | a path that is not secure always proceeds |
| Middleware.ExpiryBoundary | middleware.ts:35-39 | a token expires at exactly `exp * 1000` milliseconds |
| Middleware.FalsyExpNeverExpires | middleware.ts:35 | a token whose exp is missing or 0 never expires |
| AuthConfig.AuthorizedExactly | auth.config.ts:9-20 | a request is refused exactly when it is for /dashboard without a login |
| AuthConfig.AnonymousDashboardRefused | auth.config.ts:11-15 | every /dashboard path is refused to anonymous users |
| ArticleCard.ToggleInRange | components/article-card.tsx:50 | a click keeps the vote in {-1, 0, 1} |
| ArticleCard.ToggleTwice | components/article-card.tsx:50 | two clicks on one button restore the vote exactly when it was 0 or that button's value |
| ArticleCard.UpThenDown | components/article-card.tsx:50 | clicking up and then down ends on a downvote |
| ArticleCard.ClicksStayInRange | components/article-card.tsx:46-51 | any run of clicks keeps the vote in {-1, 0, 1} |
| ArticleCard.ReportThreshold | components/article-card.tsx:31-32 | a reading time is reported exactly when a user is signed in and at least 6000 ms passed, and it never exceeds the elapsed seconds |
| ArticleCard.CardState.constructor | components/article-card.tsx:17-21 | the vote starts at the article's vote, or 0 |
| ArticleCard.CardState.SyncUserVote | components/article-card.tsx:23-25 | a new vote prop replaces the vote and nothing else |
| ArticleCard.CardState.HandleVote | components/article-card.tsx:46-70 | without a session nothing happens; otherwise the toggled vote is sent and kept only if the request is accepted |
| ArticleCard.CardState.HandleVoteChange | components/article-card.tsx:72-74 | the dialog's vote replaces the vote |
| ArticleCard.CardState.SetIsReading | components/article-card.tsx:117 | opening or closing sets only the reading flag |
| ArticleCard.CardState.ReadingEffect | components/article-card.tsx:27-44 | opening starts the timer when none runs; closing reports the duration over five seconds and clears the timer |
| ArticleListClient.IdsAppend | components/article-list-client.tsx:77 | the ids of a concatenation are the union of the ids |
| ArticleListClient.FreshArticles | components/article-list-client.tsx:73-75 | exactly the batch items whose id was not loaded, each at most as often as in the batch |
| ArticleListClient.FreshArticlesInOrder | components/article-list-client.tsx:73-75 | the kept items stay in batch order with their repetitions: two consecutive parts give their kept items in turn, and one item is kept exactly when its id was not loaded |
| ArticleListClient.SameBatchDuplicatesKept | components/article-list-client.tsx:73-77 | two items of one batch with the same new id are both appended |
| ArticleListClient.MergeShowsBatch | components/article-list-client.tsx:73-86 | after a merge an id is shown exactly when it was shown before or is in the batch |
| ArticleListClient.ArticleList.constructor | components/article-list-client.tsx:32-40 | initial articles, their ids, the cursor at the last one, more to load |
| ArticleListClient.ArticleList.BeginLoad | components/article-list-client.tsx:49-58 | a load starts, with the flags up and the cursor requested, exactly when the guard passes |
| ArticleListClient.MergeKeepsIds | components/article-list-client.tsx:73-80 | after a merge the loaded-id set is still exactly the ids shown |
| ArticleListClient.MergeEffect | components/article-list-client.tsx:68-86 | an empty page only ends paging; otherwise exactly the new batch items are appended, and cursor and `hasMore` come from the page when something was appended, else paging ends with the cursor kept |
| ArticleListClient.ArticleList.FinishLoad | components/article-list-client.tsx:60-92 | a failure leaves the list; a page changes the list as `Merge` does; the loading flags come down and the ids stay those shown |
| RecommendationSettings.SortOrdersSelectKeys | lib/stores/recommendation-settings.ts:4 | 'recommended' sorts by score and 'date' by publication date |
| RecommendationSettings.Settings.constructor | lib/stores/recommendation-settings.ts:16-17 | external feeds off, sort order 'recommended' |
| RecommendationSettings.Settings.ToggleExternalFeeds | lib/stores/recommendation-settings.ts:18-20 | flips the flag and leaves the sort order |
| RecommendationSettings.Settings.SetSortOrder | lib/stores/recommendation-settings.ts:21 | sets the sort order and leaves the flag |
| RecommendationSettings.ToggleTwiceRestores | lib/stores/recommendation-settings.ts:18-20 | toggling external feeds twice gives back both the flag and the sort order |
| RecommendationSettings.SetSortOrderIdempotent | lib/stores/recommendation-settings.ts:21 | setting the sort order twice leaves it at that order, with the flag unchanged |

## Left out

- Prisma, the database and the network are not modelled: reads are inputs, and writes are updates of a map field.
- The candidate query has no `orderBy`, so the database's row order is unspecified. The model takes the store's order.
- The query's per-user `votes` include is not used by the scoring, so it is not modelled.
- Logging (`console.log`, `console.error`) is left out.
- Floating point and IEEE rounding are left out: scores are exact reals. `Math.tanh` is abstracted by `IsSquash`.
- The two `Date.now()` calls of one request are taken as the same `now`.
- Date parsing of `pubDate` is left out: the text is kept, or the request time is used when it is missing or empty.
- Lower-casing and `\W` are modelled for ASCII only. JavaScript's Unicode case mapping is not modelled.
- React effects, `fetch` and their interleaving are left out. A list load is split at its `await` into `BeginLoad` and `FinishLoad`. The card's vote request is an outcome parameter.
- The persistence of the settings store (zustand `persist`) and the middleware's `matcher` configuration are left out.
- The middleware's `try`/`catch` is left out: nothing in the modelled expiry check throws. URL construction and encoding of the callback URL are left out; the callback is the request URL.
- Vote bodies whose value is not a JSON number are one case, `NotANumber`. A missing `articleId` is not modelled.
- The article-score route's `value` is taken as a number.
- `updatedAt` and other database timestamps are left out.
- Ranking.SortDesc: `Array.prototype.sort` works in place; the model is a stable sort on sequences, so aliasing of the sorted array is not captured.
- LegacyTopicExtractor.ExtractTopicsWith: the order of the returned labels is not stated, only which labels come back.
- TopicExtractor.ExtractTopicsWith: the order among labels with equal points is not stated. The model's tally keeps `Map` insertion order and the sort is stable, so ties follow insertion order, but no contract exports the tally.
- The `ArticleDialog` reader component, the `GET /api/feeds` route, the reading-time route and the other pages are not part of this model.
