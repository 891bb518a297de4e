/**
 * The older topic extractor (`lib/topic-extractor.mjs`): every token of the
 * lower-cased `${title} ${content}` adds one point to each topic that has a
 * keyword the token contains or that contains the token; every topic with a
 * point is returned, with no threshold and no cap.
 */
module LegacyTopicExtractor {
  import opened Text
  import opened Ranking
  import opened TopicTally
  import TopicExtractor

  /** The table as that file declares it: only the technology topic is spelled out. */
  const LegacyTopicKeywords: Table := [("technology", TopicExtractor.TechnologyKeywords)]

  /** `keywords.some(keyword => word.includes(keyword) || keyword.includes(word))`. */
  predicate Matches(word: string, keywords: seq<string>) {
    exists i :: 0 <= i < |keywords| && (Includes(word, keywords[i]) || Includes(keywords[i], word))
  }

  /** The number of tokens that match a topic's keywords: that topic's count. */
  function MatchCount(words: seq<string>, keywords: seq<string>): (r: nat)
    ensures r <= |words|
  {
    if words == [] then 0
    else MatchCount(words[..|words| - 1], keywords) + (if Matches(words[|words| - 1], keywords) then 1 else 0)
  }

  /** Every label of the tally has at least one point. */
  ghost predicate Counted(t: Tally) {
    forall k :: k in t.order ==> Lookup(t, k) >= 1.0
  }

  /** `filter(([_, count]) => count > 0)`. */
  predicate Positive(e: (string, real)) { e.1 > 0.0 }

  /** Lines 17-23: one token against every topic of the table. */
  method CountWord(table: Table, t0: Tally, word: string) returns (t: Tally)
    requires DistinctNames(table)
    requires Valid(t0) && KeysIn(t0, table) && Counted(t0)
    ensures Valid(t) && KeysIn(t, table) && Counted(t)
    ensures forall i :: 0 <= i < |table| ==>
              Lookup(t, table[i].0) == Lookup(t0, table[i].0) + (if Matches(word, table[i].1) then 1.0 else 0.0)
  {
    t := t0;
    var ti := 0;
    while ti < |table|
      invariant 0 <= ti <= |table|
      invariant Valid(t) && KeysIn(t, table) && Counted(t)
      invariant forall i :: 0 <= i < ti ==>
                  Lookup(t, table[i].0) == Lookup(t0, table[i].0) + (if Matches(word, table[i].1) then 1.0 else 0.0)
      invariant forall i :: ti <= i < |table| ==> Lookup(t, table[i].0) == Lookup(t0, table[i].0)
    {
      var topic := table[ti].0;
      var keywords := table[ti].1;
      assert topic in Labels(table);
      if exists j :: 0 <= j < |keywords| && (Includes(word, keywords[j]) || Includes(keywords[j], word)) {
        AddKeepsCounted(t, topic);
        t := Add(t, topic, 1.0);
      }
      assert forall i :: 0 <= i < |table| && i != ti ==> table[i].0 != topic;
      ti := ti + 1;
    }
  }

  /** Adding a point keeps every label at one point or more. */
  lemma AddKeepsCounted(t: Tally, name: string)
    requires Valid(t) && Counted(t)
    ensures Counted(Add(t, name, 1.0))
  {
    forall k | k in Add(t, name, 1.0).order
      ensures Lookup(Add(t, name, 1.0), k) >= 1.0
    {
      if k != name {
        assert k in t.order;
      }
    }
  }

  /** `extractTopics` over a given keyword table. */
  method ExtractTopicsWith(table: Table, article: TopicExtractor.ArticleText) returns (labels: seq<string>)
    requires DistinctNames(table)
    ensures Distinct(labels)
    ensures forall k :: k in labels <==>
              k in Labels(table) && MatchCount(TopicExtractor.TextWords(article), KeywordsOf(table, k)) > 0
  {
    var words := SplitWords(Lower(article.title + " " + article.content));
    var t := Empty;
    var wi := 0;
    while wi < |words|
      invariant 0 <= wi <= |words|
      invariant Valid(t) && KeysIn(t, table) && Counted(t)
      invariant forall i :: 0 <= i < |table| ==>
                  Lookup(t, table[i].0) == MatchCount(words[..wi], table[i].1) as real
    {
      assert words[..wi + 1][..wi] == words[..wi];
      t := CountWord(table, t, words[wi]);
      wi := wi + 1;
    }
    assert words[..wi] == words;
    var entries := Entries(t);
    var kept := Filter(entries, Positive);
    labels := Labels(kept);
    KeptLabels(t, kept);
    forall k | k in Labels(table)
      ensures Lookup(t, k) == MatchCount(words, KeywordsOf(table, k)) as real
    {
      var i :| 0 <= i < |table| && Labels(table)[i] == k;
      KeywordsOfAt(table, i);
    }
  }

  /** The labels kept by the filter are exactly the labels counted, each once. */
  lemma KeptLabels(t: Tally, kept: seq<(string, real)>)
    requires Valid(t) && Counted(t)
    requires kept == Filter(Entries(t), Positive)
    ensures Distinct(Labels(kept))
    ensures forall k :: k in Labels(kept) <==> k in t.order
  {
    var entries := Entries(t);
    var labels := Labels(kept);
    EntriesDistinct(t);
    DistinctSub(kept, entries);
    forall i | 0 <= i < |kept|
      ensures kept[i].0 in t.order && kept[i].1 == Lookup(t, kept[i].0)
    {
      EntryOfTally(t, kept[i]);
    }
    LabelsDistinct(t, kept);
    forall k | k in t.order
      ensures k in labels
    {
      var j :| 0 <= j < |t.order| && t.order[j] == k;
      assert entries[j] == (k, Lookup(t, k)) && Positive(entries[j]);
      LabelsCover(kept);
    }
  }

  /** `extractTopics(article)`: the labels of the legacy table the article is about. */
  method ExtractTopics(article: TopicExtractor.ArticleText) returns (labels: seq<string>)
    ensures Distinct(labels)
    ensures forall k :: k in labels <==>
              k in Labels(LegacyTopicKeywords)
              && MatchCount(TopicExtractor.TextWords(article), KeywordsOf(LegacyTopicKeywords, k)) > 0
  {
    labels := ExtractTopicsWith(LegacyTopicKeywords, article);
  }

  // ----- Properties -----

  /** Every keyword includes the empty string, so an empty token matches any topic with keywords. */
  lemma EmptyTokenMatches(keywords: seq<string>)
    requires keywords != []
    ensures Matches("", keywords)
  {
    IncludesEmpty(keywords[0]);
  }

  /** One matching token is enough: there is no threshold. */
  lemma {:induction false} OneMatchCounts(words: seq<string>, keywords: seq<string>, i: nat)
    requires i < |words| && Matches(words[i], keywords)
    ensures MatchCount(words, keywords) > 0
    decreases |words|
  {
    if i < |words| - 1 {
      OneMatchCounts(words[..|words| - 1], keywords, i);
    }
  }

  /**
   * With empty content the text ends in the joining space, `split(/\W+/)`
   * yields a trailing empty token, and every topic that has keywords is
   * returned, whatever the title says.
   */
  lemma EmptyContentMatchesAll(table: Table, title: string, k: string)
    requires k in Labels(table) && KeywordsOf(table, k) != []
    ensures MatchCount(TopicExtractor.TextWords(TopicExtractor.ArticleText(title, "")), KeywordsOf(table, k)) > 0
  {
    var text := Lower(title + " " + "");
    assert text[|text| - 1] == ' ';
    SplitWordsTrailing(text);
    var words := SplitWords(text);
    EmptyTokenMatches(KeywordsOf(table, k));
    OneMatchCounts(words, KeywordsOf(table, k), |words| - 1);
  }
}
