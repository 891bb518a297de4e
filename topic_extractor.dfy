/**
 * Keyword topic extraction (`extractTopics`): phrase keywords are looked up in
 * the lower-cased title and content, every token of the title and of the whole
 * text is matched against the single-word keywords of each topic, the points
 * are tallied per topic, and the best-scoring topics with at least two points
 * are returned, three at most.
 */
module TopicExtractor {
  import opened Base
  import opened Text
  import opened Ranking
  import opened TopicTally

  /** The keyword lists of `TOPIC_KEYWORDS`, one per topic. */
  const TechnologyKeywords: seq<string> := [
    "tech", "software", "hardware", "programming", "digital", "ai", "blockchain", "crypto",
    "cybersecurity", "data", "cloud", "mobile", "app", "startup", "innovation", "web",
    "code", "developer", "computer", "algorithm", "machine learning"]

  const ArtificialIntelligenceKeywords: seq<string> := [
    "ai", "artificial intelligence", "machine learning", "ml", "deep learning",
    "neural network", "llm", "large language model", "transformer", "gpt",
    "computer vision", "nlp", "natural language", "inference", "training", "model",
    "dataset", "cuda", "gpu", "tensor", "nvidia"]

  const ScienceKeywords: seq<string> := [
    "research", "study", "scientific", "discovery", "experiment", "physics", "biology",
    "chemistry", "astronomy", "space", "climate", "medicine", "neuroscience", "quantum",
    "evolution", "genetics", "laboratory"]

  const BusinessKeywords: seq<string> := [
    "market", "company", "startup", "finance", "economy", "investment", "stock", "trade",
    "entrepreneur", "industry", "revenue", "profit", "corporate", "management", "strategy",
    "venture", "acquisition"]

  const LegalKeywords: seq<string> := [
    "law", "legal", "attorney", "lawyer", "court", "litigation", "judge", "judicial",
    "statute", "regulation", "compliance", "contract", "plaintiff", "defendant", "counsel",
    "precedent", "jurisdiction", "tort", "liability", "patent", "trademark", "copyright",
    "intellectual property", "prosecution", "defense", "appellate", "supreme court",
    "constitutional", "civil rights", "criminal", "corporate law", "tax law", "regulatory",
    "arbitration", "mediation", "settlement", "brief", "motion", "hearing", "trial"]

  const PoliticsKeywords: seq<string> := [
    "government", "policy", "election", "political", "democracy", "congress", "senate",
    "legislation", "law", "regulation", "vote", "campaign", "diplomatic", "foreign",
    "domestic", "reform", "administration"]

  const CultureKeywords: seq<string> := [
    "art", "music", "film", "movie", "entertainment", "culture", "book", "literature",
    "fashion", "design", "theater", "festival", "exhibition", "performance", "creative",
    "media", "celebrity"]

  const HealthKeywords: seq<string> := [
    "health", "medical", "wellness", "fitness", "nutrition", "diet", "mental health",
    "healthcare", "disease", "treatment", "therapy", "prevention", "medicine", "vaccine",
    "research", "clinical"]

  const SportsKeywords: seq<string> := [
    "sports", "game", "team", "player", "competition", "tournament", "championship",
    "athlete", "football", "basketball", "baseball", "soccer", "olympic", "fitness",
    "league", "match", "score"]

  const EnvironmentKeywords: seq<string> := [
    "environment", "climate", "sustainability", "renewable", "energy", "green",
    "conservation", "pollution", "recycling", "ecosystem", "biodiversity", "carbon",
    "environmental", "sustainable"]

  const EducationKeywords: seq<string> := [
    "education", "learning", "teaching", "student", "school", "university", "academic",
    "research", "study", "training", "skill", "knowledge", "course", "curriculum",
    "teacher", "professor", "classroom"]

  const GamingKeywords: seq<string> := [
    "game", "gaming", "esports", "playstation", "xbox", "nintendo", "console",
    "multiplayer", "gameplay", "streamer", "twitch", "videogame", "gamer", "steam", "rpg",
    "fps", "mmo"]

  /** `TOPIC_KEYWORDS`: topic labels with their keywords, in declaration order. */
  const TopicKeywords: Table := [
    ("technology", TechnologyKeywords),
    ("artificial_intelligence", ArtificialIntelligenceKeywords),
    ("science", ScienceKeywords),
    ("business", BusinessKeywords),
    ("legal", LegalKeywords),
    ("politics", PoliticsKeywords),
    ("culture", CultureKeywords),
    ("health", HealthKeywords),
    ("sports", SportsKeywords),
    ("environment", EnvironmentKeywords),
    ("education", EducationKeywords),
    ("gaming", GamingKeywords)
  ]

  const MinMatchesRequired: real := 2.0
  const MaxTopics: nat := 3

  datatype ArticleText = ArticleText(title: string, content: string)

  lemma TopicKeywordsDistinct()
    ensures DistinctNames(TopicKeywords)
  {
  }

  // ----- Points, as the source awards them -----

  /** A keyword containing a space is a phrase; the word pass skips it. */
  predicate IsPhrase(keyword: string) {
    ' ' in keyword
  }

  function ExactPoints(isTitle: bool): real { if isTitle then 2.0 else 1.0 }

  function PartialPoints(isTitle: bool): real { if isTitle then 1.0 else 0.5 }

  /**
   * A partial match: both strings have at least six characters, one includes
   * the other, and the shorter is more than 0.8 of the longer
   * (`min / max > 0.8`, written without division).
   */
  predicate NearDuplicate(word: string, keyword: string) {
    && |word| >= 6 && |keyword| >= 6
    && (Includes(word, keyword) || Includes(keyword, word))
    && 5 * Min(|word|, |keyword|) > 4 * Max(|word|, |keyword|)
  }

  /** A single-word keyword that matches the word exactly or partially. */
  predicate Awards(word: string, keyword: string) {
    !IsPhrase(keyword) && (word == keyword || NearDuplicate(word, keyword))
  }

  /** `keywords[i]` is the first keyword that matches; the `break` stops the loop there. */
  predicate FirstAwarding(word: string, keywords: seq<string>, i: int) {
    && 0 <= i < |keywords| && Awards(word, keywords[i])
    && forall j :: 0 <= j < i ==> !Awards(word, keywords[j])
  }

  /** The points the keyword loop of one topic gives a word. */
  function KeywordPoints(word: string, keywords: seq<string>, isTitle: bool): real {
    if keywords == [] then 0.0
    else if IsPhrase(keywords[0]) then KeywordPoints(word, keywords[1..], isTitle)
    else if word == keywords[0] then ExactPoints(isTitle)
    else if NearDuplicate(word, keywords[0]) then PartialPoints(isTitle)
    else KeywordPoints(word, keywords[1..], isTitle)
  }

  /**
   * At most one keyword awards points per word and topic: the result is
   * zero exactly when no single-word keyword matches, and otherwise the
   * exact or partial weight of the FIRST keyword that matches.
   */
  lemma {:induction false} KeywordPointsFirstMatch(word: string, keywords: seq<string>, isTitle: bool)
    ensures KeywordPoints(word, keywords, isTitle) == 0.0 <==>
              forall i :: 0 <= i < |keywords| ==> !Awards(word, keywords[i])
    ensures forall i :: FirstAwarding(word, keywords, i) ==>
              KeywordPoints(word, keywords, isTitle)
              == (if keywords[i] == word then ExactPoints(isTitle) else PartialPoints(isTitle))
    decreases |keywords|
  {
    if keywords != [] {
      KeywordPointsFirstMatch(word, keywords[1..], isTitle);
      assert forall i :: 1 <= i < |keywords| ==> keywords[i] == keywords[1..][i - 1];
      assert forall i :: 1 <= i < |keywords| && FirstAwarding(word, keywords, i) ==>
               FirstAwarding(word, keywords[1..], i - 1);
    }
  }

  /** `processWord` for one topic: words shorter than three characters score nothing. */
  function WordPoints(word: string, keywords: seq<string>, isTitle: bool): real {
    if |word| < 3 then 0.0 else KeywordPoints(word, keywords, isTitle)
  }

  /** The points of a list of words for one topic. */
  function WordsPoints(words: seq<string>, keywords: seq<string>, isTitle: bool): real {
    if words == [] then 0.0
    else WordsPoints(words[..|words| - 1], keywords, isTitle) + WordPoints(words[|words| - 1], keywords, isTitle)
  }

  /** The phrase pass for one topic: 4 for a phrase in the title, 2 for one in the content. */
  function PhrasePoints(keywords: seq<string>, lowerTitle: string, lowerContent: string): real {
    if keywords == [] then 0.0
    else
      var k := keywords[|keywords| - 1];
      PhrasePoints(keywords[..|keywords| - 1], lowerTitle, lowerContent)
      + (if IsPhrase(k) && Includes(lowerTitle, k) then 4.0 else 0.0)
      + (if IsPhrase(k) && Includes(lowerContent, k) then 2.0 else 0.0)
  }

  /** The labels the phrase pass enters into the tally: those with phrase points, in table order. */
  function PhraseTopics(table: Table, lowerTitle: string, lowerContent: string): seq<string> {
    if table == [] then []
    else
      var last := table[|table| - 1];
      PhraseTopics(table[..|table| - 1], lowerTitle, lowerContent)
      + (if PhrasePoints(last.1, lowerTitle, lowerContent) > 0.0 then [last.0] else [])
  }

  lemma PhraseTopicsStep(table: Table, ti: nat, lowerTitle: string, lowerContent: string)
    requires ti < |table|
    ensures PhraseTopics(table[..ti + 1], lowerTitle, lowerContent)
            == PhraseTopics(table[..ti], lowerTitle, lowerContent)
               + (if PhrasePoints(table[ti].1, lowerTitle, lowerContent) > 0.0 then [table[ti].0] else [])
  {
    assert table[..ti + 1][..ti] == table[..ti];
  }

  /** `titleWords`: the tokens of the lower-cased title. */
  function TitleWords(a: ArticleText): seq<string> {
    SplitWords(Lower(a.title))
  }

  /** `words`: the tokens of the lower-cased `${title} ${content}`. */
  function TextWords(a: ArticleText): seq<string> {
    SplitWords(Lower(a.title + " " + a.content))
  }

  /** All the points a topic with these keywords collects from an article. */
  function TopicPoints(keywords: seq<string>, a: ArticleText): real {
    PhrasePoints(keywords, Lower(a.title), Lower(a.content))
    + WordsPoints(TitleWords(a), keywords, true)
    + WordsPoints(TextWords(a), keywords, false)
  }

  /** The points of the topic with this label. */
  function Points(table: Table, name: string, a: ArticleText): real {
    TopicPoints(KeywordsOf(table, name), a)
  }

  // ----- The final pipeline: filter, sort, slice, map -----

  function EntryPoints(e: (string, real)): real { e.1 }

  predicate Qualifies(e: (string, real)) { e.1 >= MinMatchesRequired }

  /** The entries kept, sorted by points, and capped. */
  function Ranked(t: Tally): seq<(string, real)>
    requires Valid(t)
  {
    Take(SortDesc(Filter(Entries(t), Qualifies), EntryPoints), MaxTopics)
  }

  lemma RankedMembers(t: Tally)
    requires Valid(t)
    ensures forall i :: 0 <= i < |Ranked(t)| ==> Ranked(t)[i] in Entries(t) && Qualifies(Ranked(t)[i])
    ensures multiset(Ranked(t)) <= multiset(Entries(t))
  {
    var entries := Entries(t);
    var kept := Filter(entries, Qualifies);
    var sorted := SortDesc(kept, EntryPoints);
    var r := Ranked(t);
    TakeSorted(sorted, MaxTopics, EntryPoints);
    forall i | 0 <= i < |r|
      ensures r[i] in entries && Qualifies(r[i])
    {
      assert r[i] in multiset(r);
      assert r[i] in multiset(kept);
    }
  }

  lemma RankedEntries(t: Tally)
    requires Valid(t)
    ensures forall i :: 0 <= i < |Ranked(t)| ==>
              Ranked(t)[i].0 in t.order && Ranked(t)[i].1 == Lookup(t, Ranked(t)[i].0)
              && Ranked(t)[i].1 >= MinMatchesRequired
  {
    RankedMembers(t);
    var r := Ranked(t);
    forall i | 0 <= i < |r|
      ensures r[i].0 in t.order && r[i].1 == Lookup(t, r[i].0)
    {
      EntryOfTally(t, r[i]);
    }
  }

  lemma RankedFacts(t: Tally)
    requires Valid(t)
    ensures |Ranked(t)| <= MaxTopics
    ensures forall i :: 0 <= i < |Ranked(t)| ==>
              Ranked(t)[i].0 in t.order && Ranked(t)[i].1 == Lookup(t, Ranked(t)[i].0)
              && Ranked(t)[i].1 >= MinMatchesRequired
    ensures SortedDesc(Ranked(t), EntryPoints)
    ensures Distinct(Labels(Ranked(t)))
  {
    var r := Ranked(t);
    TakeSorted(SortDesc(Filter(Entries(t), Qualifies), EntryPoints), MaxTopics, EntryPoints);
    RankedMembers(t);
    RankedEntries(t);
    EntriesDistinct(t);
    DistinctSub(r, Entries(t));
    LabelsDistinct(t, r);
  }

  /**
   * The last statement of `extractTopics`: at most three labels, no label
   * twice, each with at least two points, best first, and every qualifying
   * topic left out scores no more than any label returned.
   */
  function RankTopics(t: Tally): (r: seq<string>)
    requires Valid(t)
    ensures |r| <= MaxTopics
    ensures Distinct(r)
    ensures forall i :: 0 <= i < |r| ==> r[i] in t.order && Lookup(t, r[i]) >= MinMatchesRequired
    ensures forall i, j :: 0 <= i < j < |r| ==> Lookup(t, r[i]) >= Lookup(t, r[j])
    ensures forall k :: k in t.order && Lookup(t, k) >= MinMatchesRequired && k !in r ==>
              |r| == MaxTopics && forall i :: 0 <= i < |r| ==> Lookup(t, r[i]) >= Lookup(t, k)
  {
    RankedLabels(t);
    RankTopicsComplete(t);
    Labels(Ranked(t))
  }

  /** The labels of the ranking: at most three, distinct, qualifying, best first. */
  lemma RankedLabels(t: Tally)
    requires Valid(t)
    ensures |Labels(Ranked(t))| <= MaxTopics
    ensures Distinct(Labels(Ranked(t)))
    ensures forall i :: 0 <= i < |Labels(Ranked(t))| ==>
              Labels(Ranked(t))[i] in t.order && Lookup(t, Labels(Ranked(t))[i]) >= MinMatchesRequired
    ensures forall i, j :: 0 <= i < j < |Labels(Ranked(t))| ==>
              Lookup(t, Labels(Ranked(t))[i]) >= Lookup(t, Labels(Ranked(t))[j])
  {
    RankedFacts(t);
    LabelsByPoints(t, Ranked(t));
  }

  /** Entries sorted by points that carry the tally's points give labels in order of points. */
  lemma LabelsByPoints(t: Tally, ranked: seq<(string, real)>)
    requires forall i :: 0 <= i < |ranked| ==> ranked[i].1 == Lookup(t, ranked[i].0)
    requires SortedDesc(ranked, EntryPoints)
    ensures forall i, j :: 0 <= i < j < |Labels(ranked)| ==> Lookup(t, Labels(ranked)[i]) >= Lookup(t, Labels(ranked)[j])
  {
    var r := Labels(ranked);
    forall i, j | 0 <= i < j < |r|
      ensures Lookup(t, r[i]) >= Lookup(t, r[j])
    {
      assert EntryPoints(ranked[i]) >= EntryPoints(ranked[j]);
    }
  }

  lemma RankTopicsComplete(t: Tally)
    requires Valid(t)
    ensures forall k :: k in t.order && Lookup(t, k) >= MinMatchesRequired && k !in Labels(Ranked(t)) ==>
              |Labels(Ranked(t))| == MaxTopics
              && forall i :: 0 <= i < |Labels(Ranked(t))| ==> Lookup(t, Labels(Ranked(t))[i]) >= Lookup(t, k)
  {
    forall k | k in t.order && Lookup(t, k) >= MinMatchesRequired && k !in Labels(Ranked(t))
      ensures |Labels(Ranked(t))| == MaxTopics
      ensures forall i :: 0 <= i < |Labels(Ranked(t))| ==> Lookup(t, Labels(Ranked(t))[i]) >= Lookup(t, k)
    {
      RankTopicsLeftOut(t, k);
    }
  }

  /** One qualifying topic left out of the ranking. */
  lemma RankTopicsLeftOut(t: Tally, k: string)
    requires Valid(t)
    requires k in t.order && Lookup(t, k) >= MinMatchesRequired && k !in Labels(Ranked(t))
    ensures |Labels(Ranked(t))| == MaxTopics
    ensures forall i :: 0 <= i < |Labels(Ranked(t))| ==> Lookup(t, Labels(Ranked(t))[i]) >= Lookup(t, k)
  {
    var entries := Entries(t);
    var kept := Filter(entries, Qualifies);
    var r := Ranked(t);
    var idx :| 0 <= idx < |t.order| && t.order[idx] == k;
    var e := entries[idx];
    assert e == (k, Lookup(t, k));
    assert e in kept;
    LabelsCover(r);
    TopN(kept, MaxTopics, EntryPoints, e);
    RankedEntries(t);
    forall i | 0 <= i < |r|
      ensures r[i].1 >= Lookup(t, k)
    {
      assert r[i] in r;
    }
  }

  // ----- The accumulation loops -----

  /** Lines 86-99: the phrase pass over every topic and keyword. */
  method PhrasePass(table: Table, lowerTitle: string, lowerContent: string) returns (t: Tally)
    requires DistinctNames(table)
    ensures Valid(t) && KeysIn(t, table)
    ensures forall i :: 0 <= i < |table| ==>
              Lookup(t, table[i].0) == PhrasePoints(table[i].1, lowerTitle, lowerContent)
    ensures t.order == PhraseTopics(table, lowerTitle, lowerContent)
  {
    t := Empty;
    var ti := 0;
    assert table[..0] == [];
    while ti < |table|
      invariant 0 <= ti <= |table|
      invariant PhrasedUpTo(table, t, ti, lowerTitle, lowerContent)
    {
      t := PhraseTopic(table, t, ti, lowerTitle, lowerContent);
      ti := ti + 1;
    }
    assert table[..ti] == table;
  }

  /** The phrase loop's state after the first `ti` topics. */
  ghost predicate PhrasedUpTo(table: Table, t: Tally, ti: nat, lowerTitle: string, lowerContent: string)
    requires ti <= |table|
  {
    && Valid(t) && KeysIn(t, table)
    && (forall i :: 0 <= i < ti ==> Lookup(t, table[i].0) == PhrasePoints(table[i].1, lowerTitle, lowerContent))
    && (forall i :: ti <= i < |table| ==> Lookup(t, table[i].0) == 0.0)
    && t.order == PhraseTopics(table[..ti], lowerTitle, lowerContent)
    && (forall k :: k in t.order ==> Lookup(t, k) > 0.0)
  }

  /** One turn of the phrase loop: the keywords of topic `ti`. */
  method PhraseTopic(table: Table, t0: Tally, ti: nat, lowerTitle: string, lowerContent: string) returns (t: Tally)
    requires DistinctNames(table) && ti < |table|
    requires PhrasedUpTo(table, t0, ti, lowerTitle, lowerContent)
    ensures PhrasedUpTo(table, t, ti + 1, lowerTitle, lowerContent)
  {
    var topic := table[ti].0;
    assert Lookup(t0, topic) == 0.0;
    t := AddPhrases(t0, topic, table[ti].1, lowerTitle, lowerContent);
    PhraseStepKeys(table, t0, t, ti);
    PhraseStepPoints(table, t0, t, ti, lowerTitle, lowerContent);
    PhraseTopicsStep(table, ti, lowerTitle, lowerContent);
  }

  /** The step keeps every key a label of the table, each with positive points. */
  lemma PhraseStepKeys(table: Table, t0: Tally, t: Tally, ti: nat)
    requires ti < |table|
    requires KeysIn(t0, table) && (forall k :: k in t0.order ==> Lookup(t0, k) > 0.0)
    requires table[ti].0 !in t0.order
    requires forall k :: k != table[ti].0 ==> Lookup(t, k) == Lookup(t0, k)
    requires t.order == t0.order + (if Lookup(t, table[ti].0) > 0.0 then [table[ti].0] else [])
    ensures KeysIn(t, table) && (forall k :: k in t.order ==> Lookup(t, k) > 0.0)
  {
    assert table[ti].0 in Labels(table);
  }

  /** The step gives topic `ti` its phrase points and leaves the other labels. */
  lemma PhraseStepPoints(table: Table, t0: Tally, t: Tally, ti: nat, lowerTitle: string, lowerContent: string)
    requires DistinctNames(table) && ti < |table|
    requires forall i :: 0 <= i < ti ==> Lookup(t0, table[i].0) == PhrasePoints(table[i].1, lowerTitle, lowerContent)
    requires forall i :: ti <= i < |table| ==> Lookup(t0, table[i].0) == 0.0
    requires Lookup(t, table[ti].0) == PhrasePoints(table[ti].1, lowerTitle, lowerContent)
    requires forall k :: k != table[ti].0 ==> Lookup(t, k) == Lookup(t0, k)
    ensures forall i :: 0 <= i < ti + 1 ==> Lookup(t, table[i].0) == PhrasePoints(table[i].1, lowerTitle, lowerContent)
    ensures forall i :: ti + 1 <= i < |table| ==> Lookup(t, table[i].0) == 0.0
  {
    assert forall i :: 0 <= i < |table| && i != ti ==> table[i].0 != table[ti].0;
  }

  /**
   * Lines 86-97: the keyword loop of one topic, for a topic not yet in the
   * tally: 4 for each phrase in the title and 2 for each in the content; the
   * topic enters the tally when it first scores.
   */
  method AddPhrases(t0: Tally, topic: string, keywords: seq<string>, lowerTitle: string, lowerContent: string)
    returns (t: Tally)
    requires Valid(t0) && topic !in t0.order
    ensures Valid(t)
    ensures Lookup(t, topic) == PhrasePoints(keywords, lowerTitle, lowerContent)
    ensures forall k :: k != topic ==> Lookup(t, k) == Lookup(t0, k)
    ensures t.order == t0.order + (if Lookup(t, topic) > 0.0 then [topic] else [])
  {
    t := t0;
    var ki := 0;
    while ki < |keywords|
      invariant 0 <= ki <= |keywords|
      invariant Valid(t)
      invariant Lookup(t, topic) == PhrasePoints(keywords[..ki], lowerTitle, lowerContent)
      invariant Lookup(t, topic) >= 0.0
      invariant forall k :: k != topic ==> Lookup(t, k) == Lookup(t0, k)
      invariant t.order == t0.order + (if Lookup(t, topic) > 0.0 then [topic] else [])
    {
      var keyword := keywords[ki];
      assert keywords[..ki + 1][..ki] == keywords[..ki];
      if IsPhrase(keyword) {
        if Includes(lowerTitle, keyword) {
          t := Add(t, topic, 4.0);
        }
        if Includes(lowerContent, keyword) {
          t := Add(t, topic, 2.0);
        }
      }
      ki := ki + 1;
    }
    assert keywords[..ki] == keywords;
  }

  /** Lines 102-134, `processWord`: each topic gets the points of its first matching keyword. */
  method ProcessWord(table: Table, t0: Tally, word: string, isTitle: bool) returns (t: Tally)
    requires DistinctNames(table)
    requires Valid(t0) && KeysIn(t0, table)
    ensures Valid(t) && KeysIn(t, table)
    ensures forall i :: 0 <= i < |table| ==>
              Lookup(t, table[i].0) == Lookup(t0, table[i].0) + WordPoints(word, table[i].1, isTitle)
    ensures forall k :: k !in Labels(table) ==> Lookup(t, k) == Lookup(t0, k)
  {
    t := t0;
    if |word| < 3 {
      return;
    }
    var ti := 0;
    while ti < |table|
      invariant 0 <= ti <= |table|
      invariant Valid(t) && KeysIn(t, table)
      invariant forall i :: 0 <= i < ti ==>
                  Lookup(t, table[i].0) == Lookup(t0, table[i].0) + WordPoints(word, table[i].1, isTitle)
      invariant forall i :: ti <= i < |table| ==> Lookup(t, table[i].0) == Lookup(t0, table[i].0)
      invariant forall k :: k !in Labels(table) ==> Lookup(t, k) == Lookup(t0, k)
    {
      var topic := table[ti].0;
      assert topic in Labels(table);
      t := MatchKeywords(t, topic, table[ti].1, word, isTitle);
      assert forall i :: 0 <= i < |table| && i != ti ==> table[i].0 != topic;
      ti := ti + 1;
    }
  }

  /**
   * Lines 105-131: the keyword loop of one topic for a word of at least three
   * characters; the first keyword that awards points adds them and ends the loop.
   */
  method MatchKeywords(t0: Tally, topic: string, keywords: seq<string>, word: string, isTitle: bool)
    returns (t: Tally)
    requires Valid(t0)
    ensures Valid(t)
    ensures forall k :: k in t.order ==> k in t0.order || k == topic
    ensures Lookup(t, topic) == Lookup(t0, topic) + KeywordPoints(word, keywords, isTitle)
    ensures forall k :: k != topic ==> Lookup(t, k) == Lookup(t0, k)
  {
    t := t0;
    var ki := 0;
    while ki < |keywords|
      invariant 0 <= ki <= |keywords|
      invariant forall j :: 0 <= j < ki ==> !Awards(word, keywords[j])
      invariant t == t0
    {
      var keyword := keywords[ki];
      if !IsPhrase(keyword) {
        if word == keyword {
          t := Add(t, topic, if isTitle then 2.0 else 1.0);
          assert FirstAwarding(word, keywords, ki);
          break;
        }
        if |word| >= 6 && |keyword| >= 6 {
          if Includes(word, keyword) || Includes(keyword, word) {
            if 5 * Min(|word|, |keyword|) > 4 * Max(|word|, |keyword|) {
              t := Add(t, topic, if isTitle then 1.0 else 0.5);
              assert FirstAwarding(word, keywords, ki);
              break;
            }
          }
        }
      }
      ki := ki + 1;
    }
    KeywordPointsFirstMatch(word, keywords, isTitle);
  }

  method ProcessWords(table: Table, t0: Tally, words: seq<string>, isTitle: bool) returns (t: Tally)
    requires DistinctNames(table)
    requires Valid(t0) && KeysIn(t0, table)
    ensures Valid(t) && KeysIn(t, table)
    ensures forall i :: 0 <= i < |table| ==>
              Lookup(t, table[i].0) == Lookup(t0, table[i].0) + WordsPoints(words, table[i].1, isTitle)
  {
    t := t0;
    var wi := 0;
    while wi < |words|
      invariant 0 <= wi <= |words|
      invariant Valid(t) && KeysIn(t, table)
      invariant forall i :: 0 <= i < |table| ==>
                  Lookup(t, table[i].0) == Lookup(t0, table[i].0) + WordsPoints(words[..wi], table[i].1, isTitle)
    {
      assert words[..wi + 1][..wi] == words[..wi];
      t := ProcessWord(table, t, words[wi], isTitle);
      wi := wi + 1;
    }
    assert words[..wi] == words;
  }

  /** The tally for a table lists every label's points. */
  lemma TallyIsPoints(table: Table, t: Tally, a: ArticleText)
    requires DistinctNames(table) && Valid(t) && KeysIn(t, table)
    requires forall i :: 0 <= i < |table| ==> Lookup(t, table[i].0) == TopicPoints(table[i].1, a)
    ensures forall k :: k in Labels(table) ==> Lookup(t, k) == Points(table, k, a)
  {
    forall k | k in Labels(table)
      ensures Lookup(t, k) == Points(table, k, a)
    {
      var i :| 0 <= i < |table| && Labels(table)[i] == k;
      KeywordsOfAt(table, i);
    }
  }

  /** `extractTopics` over a given keyword table. */
  method ExtractTopicsWith(table: Table, article: ArticleText) returns (labels: seq<string>)
    requires DistinctNames(table)
    ensures |labels| <= MaxTopics
    ensures Distinct(labels)
    ensures forall i :: 0 <= i < |labels| ==>
              labels[i] in Labels(table) && Points(table, labels[i], article) >= MinMatchesRequired
    ensures forall i, j :: 0 <= i < j < |labels| ==>
              Points(table, labels[i], article) >= Points(table, labels[j], article)
    ensures forall k :: k in Labels(table) && Points(table, k, article) >= MinMatchesRequired && k !in labels ==>
              |labels| == MaxTopics
              && forall i :: 0 <= i < |labels| ==> Points(table, labels[i], article) >= Points(table, k, article)
  {
    var text := Lower(article.title + " " + article.content);
    var words := SplitWords(text);
    var titleWords := SplitWords(Lower(article.title));
    var t := PhrasePass(table, Lower(article.title), Lower(article.content));
    t := ProcessWords(table, t, titleWords, true);
    t := ProcessWords(table, t, words, false);
    TallyIsPoints(table, t, article);
    labels := RankTopics(t);
    forall k | k in Labels(table) && Points(table, k, article) >= MinMatchesRequired
      ensures k in t.order
    {
      assert Lookup(t, k) >= MinMatchesRequired;
    }
  }

  /** `extractTopics(article)`: the labels of `TOPIC_KEYWORDS` the article is about. */
  method ExtractTopics(article: ArticleText) returns (labels: seq<string>)
    ensures |labels| <= MaxTopics
    ensures Distinct(labels)
    ensures forall i :: 0 <= i < |labels| ==>
              labels[i] in Labels(TopicKeywords) && Points(TopicKeywords, labels[i], article) >= MinMatchesRequired
    ensures forall i, j :: 0 <= i < j < |labels| ==>
              Points(TopicKeywords, labels[i], article) >= Points(TopicKeywords, labels[j], article)
    ensures forall k ::
              k in Labels(TopicKeywords) && Points(TopicKeywords, k, article) >= MinMatchesRequired && k !in labels ==>
              |labels| == MaxTopics
              && forall i :: 0 <= i < |labels| ==>
                   Points(TopicKeywords, labels[i], article) >= Points(TopicKeywords, k, article)
  {
    TopicKeywordsDistinct();
    labels := ExtractTopicsWith(TopicKeywords, article);
  }

  // ----- Properties of the points -----

  predicate IsLong(word: string) { |word| >= 3 }

  /** Tokens shorter than three characters contribute nothing: dropping them changes no topic's points. */
  lemma {:induction false} ShortWordsScoreNothing(words: seq<string>, keywords: seq<string>, isTitle: bool)
    ensures WordsPoints(words, keywords, isTitle) == WordsPoints(Filter(words, IsLong), keywords, isTitle)
    decreases |words|
  {
    if words != [] {
      ShortWordsScoreNothing(words[..|words| - 1], keywords, isTitle);
    }
  }

  predicate IsSingleWord(keyword: string) { !IsPhrase(keyword) }

  /** The word pass ignores phrase keywords: dropping them changes no word's points. */
  lemma {:induction false} PhrasesSkippedInWordPass(word: string, keywords: seq<string>, isTitle: bool)
    ensures KeywordPoints(word, keywords, isTitle) == KeywordPoints(word, Filter(keywords, IsSingleWord), isTitle)
    decreases |keywords|
  {
    if keywords != [] {
      var init := keywords[..|keywords| - 1];
      var last := keywords[|keywords| - 1];
      assert keywords == init + [last];
      PhrasesSkippedInWordPass(word, init, isTitle);
      if IsSingleWord(last) {
        SkippedThenWord(word, init, last, isTitle);
      } else {
        SkippedThenPhrase(word, init, last, isTitle);
      }
    }
  }

  /** The step of `PhrasesSkippedInWordPass` for a final single-word keyword. */
  lemma SkippedThenWord(word: string, init: seq<string>, last: string, isTitle: bool)
    requires IsSingleWord(last)
    requires KeywordPoints(word, init, isTitle) == KeywordPoints(word, Filter(init, IsSingleWord), isTitle)
    ensures KeywordPoints(word, init + [last], isTitle)
         == KeywordPoints(word, Filter(init + [last], IsSingleWord), isTitle)
  {
    var kept := Filter(init, IsSingleWord);
    assert (init + [last])[..|init|] == init;
    assert Filter(init + [last], IsSingleWord) == kept + [last];
    KeywordPointsSnoc(word, init, last, isTitle);
    KeywordPointsSnoc(word, kept, last, isTitle);
  }

  /** The step of `PhrasesSkippedInWordPass` for a final phrase. */
  lemma SkippedThenPhrase(word: string, init: seq<string>, last: string, isTitle: bool)
    requires !IsSingleWord(last)
    requires KeywordPoints(word, init, isTitle) == KeywordPoints(word, Filter(init, IsSingleWord), isTitle)
    ensures KeywordPoints(word, init + [last], isTitle)
         == KeywordPoints(word, Filter(init + [last], IsSingleWord), isTitle)
  {
    assert (init + [last])[..|init|] == init;
    assert Filter(init + [last], IsSingleWord) == Filter(init, IsSingleWord);
    KeywordPointsSnoc(word, init, last, isTitle);
    KeywordPointsSingle(word, last, isTitle);
  }

  lemma KeywordPointsSingle(word: string, k: string, isTitle: bool)
    ensures KeywordPoints(word, [k], isTitle)
         == if !Awards(word, k) then 0.0 else if word == k then ExactPoints(isTitle) else PartialPoints(isTitle)
  {
    assert [k][1..] == [];
  }

  /** Appending a keyword only matters when none before it matched. */
  lemma {:induction false} KeywordPointsSnoc(word: string, keywords: seq<string>, k: string, isTitle: bool)
    ensures KeywordPoints(word, keywords + [k], isTitle)
         == if KeywordPoints(word, keywords, isTitle) != 0.0 then KeywordPoints(word, keywords, isTitle)
            else KeywordPoints(word, [k], isTitle)
    decreases |keywords|
  {
    if keywords == [] {
      assert keywords + [k] == [k];
    } else {
      assert (keywords + [k])[1..] == keywords[1..] + [k];
      KeywordPointsSnoc(word, keywords[1..], k, isTitle);
    }
  }

  /** Phrase keywords score only in the phrase pass, and single words never do. */
  lemma {:induction false} PhrasePassOnlyPhrases(keywords: seq<string>, lowerTitle: string, lowerContent: string)
    ensures PhrasePoints(keywords, lowerTitle, lowerContent)
         == PhrasePoints(Filter(keywords, IsPhrase), lowerTitle, lowerContent)
    decreases |keywords|
  {
    if keywords != [] {
      PhrasePassOnlyPhrases(keywords[..|keywords| - 1], lowerTitle, lowerContent);
    }
  }

  /** A word shorter than six characters only ever scores an exact match. */
  lemma {:induction false} ShortWordExactOnly(word: string, keywords: seq<string>, isTitle: bool)
    requires |word| < 6
    ensures KeywordPoints(word, keywords, isTitle)
         == if word in Filter(keywords, IsSingleWord) then ExactPoints(isTitle) else 0.0
    decreases |keywords|
  {
    if keywords != [] {
      var init := keywords[..|keywords| - 1];
      var last := keywords[|keywords| - 1];
      var kept := Filter(init, IsSingleWord);
      ShortWordExactOnly(word, init, isTitle);
      assert keywords == init + [last];
      KeywordPointsSnoc(word, init, last, isTitle);
      KeywordPointsSingle(word, last, isTitle);
      if IsSingleWord(last) {
        assert Filter(keywords, IsSingleWord) == kept + [last];
      } else {
        assert Filter(keywords, IsSingleWord) == kept;
      }
    }
  }

  /** Phrases hold a space, so texts made of word characters contain none of them. */
  lemma {:induction false} NoPhraseInWord(keywords: seq<string>, lowerTitle: string, lowerContent: string)
    requires AllWordChars(lowerTitle) && AllWordChars(lowerContent)
    ensures PhrasePoints(keywords, lowerTitle, lowerContent) == 0.0
    decreases |keywords|
  {
    if keywords != [] {
      var k := keywords[|keywords| - 1];
      NoPhraseInWord(keywords[..|keywords| - 1], lowerTitle, lowerContent);
      if IsPhrase(k) {
        var i :| 0 <= i < |k| && k[i] == ' ';
        IncludesOnlyWords(lowerTitle, k, i);
        IncludesOnlyWords(lowerContent, k, i);
      }
    }
  }

  /**
   * An article whose title is one lower-case word and whose content is empty:
   * no phrase matches, the title pass sees the word once, and the text pass
   * sees it again followed by the empty token after the joining space.
   */
  lemma OneWordTitle(keywords: seq<string>, w: string)
    requires AllWordChars(w) && Lower(w) == w
    ensures TopicPoints(keywords, ArticleText(w, ""))
         == WordPoints(w, keywords, true) + WordPoints(w, keywords, false)
  {
    var a := ArticleText(w, "");
    assert Lower(w + " " + "") == w + [' '] by {
      assert Lower(w + " " + "") == Lower(w) + [' '];
    }
    SplitWordsWord(w);
    SplitWordsWordThen(w, ' ');
    assert TitleWords(a) == [w];
    assert TextWords(a) == [w, ""];
    NoPhraseInWord(keywords, w, Lower(""));
    assert [w, ""][..1] == [w] && [w][..0] == [];
    assert WordsPoints([w], keywords, true) == WordPoints(w, keywords, true);
    assert WordsPoints([w], keywords, false) == WordPoints(w, keywords, false);
    assert WordsPoints([w, ""], keywords, false) == WordPoints(w, keywords, false);
  }

  /**
   * The title is tokenised twice: a short title word that is exactly a
   * single-word keyword scores the title weight 2 and again the content
   * weight 1, three points, which alone clears the two-point threshold.
   */
  lemma {:induction false} TitleWordScoresThree(keywords: seq<string>, w: string)
    requires AllWordChars(w) && Lower(w) == w && 3 <= |w| < 6
    requires w in Filter(keywords, IsSingleWord)
    ensures TopicPoints(keywords, ArticleText(w, "")) == 3.0
  {
    OneWordTitle(keywords, w);
    ShortWordExactOnly(w, keywords, true);
    ShortWordExactOnly(w, keywords, false);
  }

  /** The title "cloud" alone makes an article a technology article. */
  lemma CloudIsTechnology()
    ensures Points(TopicKeywords, "technology", ArticleText("cloud", "")) == 3.0
  {
    var kws := TechnologyKeywords;
    assert KeywordsOf(TopicKeywords, "technology") == kws;
    assert kws[10] == "cloud" && IsSingleWord("cloud");
    TitleWordScoresThree(kws, "cloud");
  }

  /**
   * `break` takes the first keyword that matches, exact or partial: the title
   * word "environmental" scores 1 (a partial match with the earlier keyword
   * "environment"), not the 2 of its own exact keyword.
   */
  lemma FirstMatchWins()
    ensures "environmental" in KeywordsOf(TopicKeywords, "environment")
    ensures KeywordPoints("environmental", KeywordsOf(TopicKeywords, "environment"), true) == 1.0
  {
    TopicKeywordsDistinct();
    KeywordsOfAt(TopicKeywords, 9);
    var kws := EnvironmentKeywords;
    assert kws[0] == "environment" && kws[12] == "environmental";
    assert StartsWith("environmental", "environment");
    assert !IsPhrase("environment");
    assert FirstAwarding("environmental", kws, 0);
    KeywordPointsFirstMatch("environmental", kws, true);
  }
}
