/**
 * `POST /api/vote`: a signed-in user sets (+1/-1) or clears (0) their vote on
 * an article. The votes table, keyed by (userId, articleId), is a map field of
 * the `VoteStore` class; a map holds at most one vote per key, as the
 * table's unique key does.
 */
module VoteRoute {
  import opened Base

  type Key = (string, string)

  /** The `value` of the request body: a JSON number, or anything else (a string, `null`, missing). */
  datatype BodyValue = Number(n: real) | NotANumber

  datatype VoteBody = VoteBody(articleId: string, value: BodyValue)

  /** A stored vote, as `NextResponse.json(vote)` returns it. */
  datatype VoteRecord = VoteRecord(userId: string, articleId: string, value: int)

  datatype VoteResponse =
    | Unauthorized        // 401
    | InvalidVoteValue    // 400
    | Failed              // 500
    | Ok(vote: Option<VoteRecord>)

  /** `[1, 0, -1].includes(value)`. */
  predicate IsVoteValue(v: BodyValue) {
    v.Number? && (v.n == 1.0 || v.n == 0.0 || v.n == -1.0)
  }

  /** Every stored vote is +1 or -1. */
  predicate ValidVotes(votes: map<Key, int>) {
    forall k :: k in votes ==> votes[k] == 1 || votes[k] == -1
  }

  /**
   * The whole request against the votes table: the new table and the response.
   * `session` is the signed-in user's id, `body` is `None` when `req.json()`
   * throws, and `writeFails` says whether the database write (the delete or
   * the upsert) throws for a reason other than a missing row.
   */
  function Vote(votes: map<Key, int>, session: Option<string>, body: Option<VoteBody>, writeFails: bool)
    : (map<Key, int>, VoteResponse)
  {
    if session.None? then (votes, Unauthorized)
    else if body.None? then (votes, Failed)
    else if !IsVoteValue(body.value.value) then (votes, InvalidVoteValue)
    else
      var key := (session.value, body.value.articleId);
      var n := body.value.value.n;
      if n == 0.0 then
        // delete; `.catch(() => null)` answers null for a missing vote and for a failed delete alike
        if key in votes && !writeFails then (votes - {key}, Ok(Some(VoteRecord(key.0, key.1, votes[key]))))
        else (votes, Ok(None))
      else if writeFails then (votes, Failed)
      else
        var v := if n == 1.0 then 1 else -1;
        (votes[key := v], Ok(Some(VoteRecord(key.0, key.1, v))))
  }

  /** Lines 8-10 and 16-18: a rejected request leaves the table as it was. */
  lemma RejectedLeavesVotes(votes: map<Key, int>, session: Option<string>, body: Option<VoteBody>, writeFails: bool)
    requires session.None? || (body.Some? && !IsVoteValue(body.value.value))
    ensures Vote(votes, session, body, writeFails).0 == votes
    ensures Vote(votes, session, body, writeFails).1 == if session.None? then Unauthorized else InvalidVoteValue
  {
  }

  /**
   * Lines 21-48: a valid vote by a signed-in user clears the key on 0 (whether
   * or not a vote was there) and sets it to the value on +1/-1; no other key
   * changes, and every stored vote stays +1 or -1.
   */
  lemma VoteEffect(votes: map<Key, int>, user: string, articleId: string, n: real, k: Key)
    requires ValidVotes(votes)
    requires n == 1.0 || n == 0.0 || n == -1.0
    ensures var r := Vote(votes, Some(user), Some(VoteBody(articleId, Number(n))), false);
      && ValidVotes(r.0)
      && r.1.Ok?
      && (k != (user, articleId) ==> (k in r.0 <==> k in votes) && (k in votes ==> r.0[k] == votes[k]))
      && (n == 0.0 ==> (user, articleId) !in r.0)
      && (n != 0.0 ==> (user, articleId) in r.0 && r.0[(user, articleId)] as real == n)
  {
  }

  /**
   * Line 30: a delete that throws is caught, so clearing answers `null` and
   * leaves the table as it was, vote or no vote; an upsert that throws is a 500.
   */
  lemma FailedWrites(votes: map<Key, int>, user: string, articleId: string, n: real)
    requires n == 1.0 || n == 0.0 || n == -1.0
    ensures var r := Vote(votes, Some(user), Some(VoteBody(articleId, Number(n))), true);
      r.0 == votes && r.1 == if n == 0.0 then Ok(None) else Failed
  {
  }

  /** Repeating the same +1/-1 vote leaves the table as the first one left it. */
  lemma VoteIdempotent(votes: map<Key, int>, user: string, body: VoteBody)
    requires body.value.Number? && (body.value.n == 1.0 || body.value.n == -1.0)
    ensures var once := Vote(votes, Some(user), Some(body), false);
      Vote(once.0, Some(user), Some(body), false) == once
  {
    var key := (user, body.articleId);
    var v := if body.value.n == 1.0 then 1 else -1;
    assert votes[key := v][key := v] == votes[key := v];
  }

  /** Clearing twice is the same as clearing once; the second answer is `null`. */
  lemma ClearIdempotent(votes: map<Key, int>, user: string, articleId: string)
    ensures var once := Vote(votes, Some(user), Some(VoteBody(articleId, Number(0.0))), false);
      var twice := Vote(once.0, Some(user), Some(VoteBody(articleId, Number(0.0))), false);
      twice.0 == once.0 && twice.1 == Ok(None)
  {
  }

  /** A user's requests, one after another, with no write failing. */
  function VoteAll(votes: map<Key, int>, user: string, bodies: seq<Option<VoteBody>>): map<Key, int> {
    if bodies == [] then votes
    else Vote(VoteAll(votes, user, bodies[..|bodies| - 1]), Some(user), bodies[|bodies| - 1], false).0
  }

  /** However many requests a user sends, no other user's votes change, and all stay +1 or -1. */
  lemma {:induction false} OtherUsersUntouched(votes: map<Key, int>, user: string, bodies: seq<Option<VoteBody>>, k: Key)
    requires ValidVotes(votes)
    requires k.0 != user
    ensures ValidVotes(VoteAll(votes, user, bodies))
    ensures k in VoteAll(votes, user, bodies) <==> k in votes
    ensures k in votes ==> VoteAll(votes, user, bodies)[k] == votes[k]
    decreases |bodies|
  {
    if bodies != [] {
      var before := VoteAll(votes, user, bodies[..|bodies| - 1]);
      OtherUsersUntouched(votes, user, bodies[..|bodies| - 1], k);
      var b := bodies[|bodies| - 1];
      if b.Some? && IsVoteValue(b.value.value) {
        VoteEffect(before, user, b.value.articleId, b.value.value.n, k);
      }
    }
  }

  /** The votes table behind the route. */
  class VoteStore {
    var votes: map<Key, int>

    ghost predicate Valid()
      reads this
    {
      ValidVotes(votes)
    }

    constructor()
      ensures Valid() && votes == map[]
    {
      votes := map[];
    }

    /** `POST(req)`. */
    method Post(session: Option<string>, body: Option<VoteBody>, writeFails: bool) returns (response: VoteResponse)
      requires Valid()
      modifies this
      ensures Valid()
      ensures (votes, response) == Vote(old(votes), session, body, writeFails)
    {
      if session.None? {
        return Unauthorized;
      }
      if body.None? {
        return Failed;
      }
      var articleId := body.value.articleId;
      var value := body.value.value;
      if !(value.Number? && (value.n == 1.0 || value.n == 0.0 || value.n == -1.0)) {
        return InvalidVoteValue;
      }
      var key := (session.value, articleId);
      if value.n == 0.0 {
        if key in votes && !writeFails {
          var deleted := VoteRecord(key.0, key.1, votes[key]);
          votes := votes - {key};
          response := Ok(Some(deleted));
        } else {
          response := Ok(None);
        }
      } else {
        if writeFails {
          return Failed;
        }
        var v := if value.n == 1.0 then 1 else -1;
        votes := votes[key := v];
        response := Ok(Some(VoteRecord(key.0, key.1, v)));
      }
    }
  }
}
