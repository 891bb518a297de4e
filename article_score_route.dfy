/**
 * `POST /api/article-score`: each interaction of a signed-in user with an
 * article adds a weighted increment to that user's score for the article.
 * The scores table, keyed by (userId, articleId), is a map field of the
 * `ScoreStore` class.
 */
module ArticleScoreRoute {
  import opened Base

  type Key = (string, string)

  // `WEIGHTS`
  const VoteWeight: real := 10.0
  const ViewWeight: real := 1.0
  const ScrollWeight: real := 0.1
  const ReadTimeWeight: real := 0.05

  /** The request body; `value` is the number sent with the interaction. */
  datatype ScoreBody = ScoreBody(articleId: string, interaction: string, value: real)

  datatype ScoreRecord = ScoreRecord(userId: string, articleId: string, score: real)

  datatype ScoreResponse =
    | Unauthorized   // 401
    | Failed         // 500
    | Ok(record: ScoreRecord)

  /** Lines 23-38: the `switch` on the interaction; an unknown interaction adds 0. */
  function Increment(interaction: string, value: real): real {
    match interaction
    case "vote" => VoteWeight * value
    case "view" => ViewWeight
    case "scroll" => ScrollWeight * value
    case "readTime" => ReadTimeWeight * value
    case _ => 0.0
  }

  /** The stored score, 0 when there is none. */
  function Score(scores: map<Key, real>, k: Key): real {
    if k in scores then scores[k] else 0.0
  }

  /**
   * The whole request against the scores table: the new table and the
   * response. `session` is the signed-in user's id and `body` is `None` when
   * `req.json()` throws.
   */
  function Post(scores: map<Key, real>, session: Option<string>, body: Option<ScoreBody>)
    : (map<Key, real>, ScoreResponse)
  {
    if session.None? then (scores, Unauthorized)
    else if body.None? then (scores, Failed)
    else
      var b := body.value;
      var key := (session.value, b.articleId);
      var inc := Increment(b.interaction, b.value);
      // the upsert: increment an existing score, or create one equal to the increment
      var s := if key in scores then scores[key] + inc else inc;
      (scores[key := s], Ok(ScoreRecord(key.0, key.1, s)))
  }

  /** The increments of the bodies sent for one article. */
  function IncrementsFor(bodies: seq<ScoreBody>, articleId: string): real {
    if bodies == [] then 0.0
    else
      var b := bodies[|bodies| - 1];
      IncrementsFor(bodies[..|bodies| - 1], articleId) + (if b.articleId == articleId then Increment(b.interaction, b.value) else 0.0)
  }

  /** A user's requests, one after another. */
  function PostAll(scores: map<Key, real>, user: string, bodies: seq<ScoreBody>): map<Key, real> {
    if bodies == [] then scores
    else Post(PostAll(scores, user, bodies[..|bodies| - 1]), Some(user), Some(bodies[|bodies| - 1])).0
  }

  /** Lines 6-11 and 23-38: the increment of each interaction, by its weight. */
  lemma IncrementTable(value: real)
    ensures Increment("vote", value) == 10.0 * value
    ensures Increment("view", value) == 1.0
    ensures Increment("scroll", value) == value / 10.0
    ensures Increment("readTime", value) == value / 20.0
    ensures Increment("click", value) == 0.0
  {
  }

  /**
   * Lines 40-58: one request moves only its own key, by the increment, creating
   * the score when it is missing; an unauthenticated request is answered 401
   * and an unreadable one 500, both with nothing changed.
   */
  lemma PostEffect(scores: map<Key, real>, session: Option<string>, body: Option<ScoreBody>, k: Key)
    ensures session.None? ==> Post(scores, session, body) == (scores, Unauthorized)
    ensures session.Some? && body.None? ==> Post(scores, session, body) == (scores, Failed)
    ensures session.Some? && body.Some? ==>
              var r := Post(scores, session, body);
              var key := (session.value, body.value.articleId);
              && key in r.0
              && r.1 == Ok(ScoreRecord(key.0, key.1, r.0[key]))
              && Score(r.0, k) == Score(scores, k) + (if k == key then Increment(body.value.interaction, body.value.value) else 0.0)
              && (k != key ==> (k in r.0 <==> k in scores))
  {
  }

  /**
   * After a run of requests, a key of the user holds its old score plus the
   * increments sent for that article; other users' scores are untouched.
   */
  lemma {:induction false} ScoresAreSums(scores: map<Key, real>, user: string, bodies: seq<ScoreBody>, k: Key)
    ensures k.0 == user ==> Score(PostAll(scores, user, bodies), k) == Score(scores, k) + IncrementsFor(bodies, k.1)
    ensures k.0 != user ==> Score(PostAll(scores, user, bodies), k) == Score(scores, k)
    ensures k.0 != user ==> (k in PostAll(scores, user, bodies) <==> k in scores)
    decreases |bodies|
  {
    if bodies != [] {
      ScoresAreSums(scores, user, bodies[..|bodies| - 1], k);
    }
  }

  /** The scores table behind the route. */
  class ScoreStore {
    var scores: map<Key, real>

    constructor()
      ensures scores == map[]
    {
      scores := map[];
    }

    /** `POST(req)`. */
    method HandlePost(session: Option<string>, body: Option<ScoreBody>) returns (response: ScoreResponse)
      modifies this
      ensures (scores, response) == Post(old(scores), session, body)
    {
      if session.None? {
        return Unauthorized;
      }
      if body.None? {
        return Failed;
      }
      var articleId := body.value.articleId;
      var interaction := body.value.interaction;
      var value := body.value.value;
      var scoreIncrement := 0.0;
      if interaction == "vote" {
        scoreIncrement := VoteWeight * value;
      } else if interaction == "view" {
        scoreIncrement := ViewWeight;
      } else if interaction == "scroll" {
        scoreIncrement := ScrollWeight * value;
      } else if interaction == "readTime" {
        scoreIncrement := ReadTimeWeight * value;
      }
      var key := (session.value, articleId);
      var score := if key in scores then scores[key] + scoreIncrement else scoreIncrement;
      scores := scores[key := score];
      response := Ok(ScoreRecord(key.0, key.1, score));
    }
  }
}
