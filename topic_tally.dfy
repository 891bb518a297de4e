/**
 * The keyword tables and the per-topic tally (`topicMatches`, a JavaScript
 * `Map<string, number>`) shared by both topic extractors.  A JavaScript `Map`
 * remembers the order in which keys were first set, and `Array.from(m.entries())`
 * lists them in that order; the tally keeps that order explicitly.
 */
module TopicTally {
  import opened Ranking

  /** `Object.entries(TOPIC_KEYWORDS)`: topic labels with their keywords, in declaration order. */
  type Table = seq<(string, seq<string>)>

  /** An object literal cannot repeat a key, so the labels of a table are distinct. */
  predicate DistinctNames(table: Table) {
    forall i, j :: 0 <= i < j < |table| ==> table[i].0 != table[j].0
  }

  /** The keywords listed under a label (none for a label the table lacks). */
  function KeywordsOf(table: Table, name: string): seq<string> {
    if table == [] then []
    else if table[0].0 == name then table[0].1
    else KeywordsOf(table[1..], name)
  }

  lemma {:induction false} KeywordsOfAt(table: Table, i: nat)
    requires DistinctNames(table) && i < |table|
    ensures KeywordsOf(table, table[i].0) == table[i].1
    decreases |table|
  {
    if i > 0 {
      assert table[0].0 != table[i].0;
      KeywordsOfAt(table[1..], i - 1);
    }
  }

  /** The tally: labels in first-insertion order and their points. */
  datatype Tally = Tally(order: seq<string>, points: map<string, real>)

  ghost predicate Valid(t: Tally) {
    Distinct(t.order) && (forall k :: k in t.order <==> k in t.points)
  }

  const Empty: Tally := Tally([], map[])

  /** `topicMatches.get(topic) || 0`. */
  function Lookup(t: Tally, name: string): real {
    if name in t.points then t.points[name] else 0.0
  }

  /** `topicMatches.set(topic, (topicMatches.get(topic) || 0) + d)`. */
  function Add(t: Tally, name: string, d: real): (r: Tally)
    requires Valid(t)
    ensures Valid(r)
    ensures forall k :: Lookup(r, k) == Lookup(t, k) + (if k == name then d else 0.0)
    ensures forall k :: k in r.order <==> k in t.order || k == name
    ensures r.order == if name in t.order then t.order else t.order + [name]
  {
    if name in t.points then Tally(t.order, t.points[name := t.points[name] + d])
    else Tally(t.order + [name], t.points[name := d])
  }

  /** `Array.from(topicMatches.entries())`. */
  function Entries(t: Tally): (r: seq<(string, real)>)
    requires Valid(t)
    ensures |r| == |t.order|
    ensures forall i :: 0 <= i < |r| ==> r[i] == (t.order[i], Lookup(t, t.order[i]))
  {
    seq(|t.order|, i requires 0 <= i < |t.order| => (t.order[i], t.points[t.order[i]]))
  }

  /**
   * The labels of a list of pairs: of a keyword table, or of tally entries
   * (`map(([topic]) => topic)`).
   */
  function Labels<T>(s: seq<(string, T)>): (r: seq<string>)
    ensures |r| == |s|
    ensures forall i :: 0 <= i < |s| ==> r[i] == s[i].0
  {
    seq(|s|, i requires 0 <= i < |s| => s[i].0)
  }

  lemma LabelsCover(s: seq<(string, real)>)
    ensures forall e :: e in s ==> e.0 in Labels(s)
  {
    forall e | e in s
      ensures e.0 in Labels(s)
    {
      var i :| 0 <= i < |s| && s[i] == e;
      assert Labels(s)[i] == e.0;
    }
  }

  /** Every label in the tally is a label of the table. */
  ghost predicate KeysIn(t: Tally, table: Table) {
    forall k :: k in t.order ==> k in Labels(table)
  }

  /** The tally's entries are distinct because its labels are. */
  lemma EntriesDistinct(t: Tally)
    requires Valid(t)
    ensures Distinct(Entries(t))
  {
    var entries := Entries(t);
    forall i, j | 0 <= i < j < |entries|
      ensures entries[i] != entries[j]
    {
      assert t.order[i] != t.order[j];
    }
  }
  /** An entry of the tally is one of its labels with that label's points. */
  lemma EntryOfTally(t: Tally, e: (string, real))
    requires Valid(t) && e in Entries(t)
    ensures e.0 in t.order && e.1 == Lookup(t, e.0)
  {
    var entries := Entries(t);
    var j :| 0 <= j < |entries| && entries[j] == e;
    assert entries[j] == (t.order[j], Lookup(t, t.order[j]));
  }

  /** Distinct entries that carry the tally's points have distinct labels. */
  lemma LabelsDistinct(t: Tally, s: seq<(string, real)>)
    requires Distinct(s)
    requires forall i :: 0 <= i < |s| ==> s[i].1 == Lookup(t, s[i].0)
    ensures Distinct(Labels(s))
  {
    var names := Labels(s);
    forall i, j | 0 <= i < j < |names|
      ensures names[i] != names[j]
    {
      assert s[i] != s[j];
      assert s[i] == (s[i].0, s[i].1) && s[j] == (s[j].0, s[j].1);
    }
  }
}
