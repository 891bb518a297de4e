/**
 * The article card's client state (`components/article-card.tsx`): the
 * optimistic vote toggle with rollback when the request fails, and the
 * reading-time effect that starts a timer when the reader opens and reports
 * the whole seconds read when it closes.
 */
module ArticleCard {
  import opened Base

  /** Line 50: clicking the button already chosen clears the vote, any other sets it. */
  function Toggle(current: int, value: int): int {
    if current == value then 0 else value
  }

  /** From a vote in {-1, 0, 1}, clicking +1 or -1 keeps it in {-1, 0, 1}. */
  lemma ToggleInRange(current: int, value: int)
    requires current == -1 || current == 0 || current == 1
    requires value == 1 || value == -1
    ensures var r := Toggle(current, value); r == -1 || r == 0 || r == 1
  {
  }

  /** Clicking the same button twice restores the vote exactly when it was 0 or that button's value. */
  lemma ToggleTwice(current: int, value: int)
    ensures Toggle(Toggle(current, value), value) == current <==> current == 0 || current == value
  {
  }

  /** Clicking up and then down always ends on a downvote. */
  lemma UpThenDown(current: int)
    ensures Toggle(Toggle(current, 1), -1) == -1
  {
  }

  /** The vote after a run of clicks that all succeed. */
  function AfterClicks(current: int, clicks: seq<int>): int {
    if clicks == [] then current
    else Toggle(AfterClicks(current, clicks[..|clicks| - 1]), clicks[|clicks| - 1])
  }

  /** Only the two buttons call `handleVote`, so any run of clicks keeps the vote in {-1, 0, 1}. */
  lemma {:induction false} ClicksStayInRange(current: int, clicks: seq<int>)
    requires current == -1 || current == 0 || current == 1
    requires forall i :: 0 <= i < |clicks| ==> clicks[i] == 1 || clicks[i] == -1
    ensures var r := AfterClicks(current, clicks); r == -1 || r == 0 || r == 1
    decreases |clicks|
  {
    if clicks != [] {
      ClicksStayInRange(current, clicks[..|clicks| - 1]);
      ToggleInRange(AfterClicks(current, clicks[..|clicks| - 1]), clicks[|clicks| - 1]);
    }
  }

  /** `!readingStartTime`: `null` and `0` are both falsy. */
  predicate Falsy(t: Option<int>) {
    t.None? || t.value == 0
  }

  /**
   * Line 31: `Math.floor((now - start) / 1000)`. Dafny's `/` rounds toward
   * negative infinity for a positive divisor, as `Math.floor` does.
   */
  function Seconds(start: int, now: int): int {
    (now - start) / 1000
  }

  /** Lines 31-41: the duration reported on closing, if any. */
  function Report(start: int, now: int, hasUser: bool): Option<int> {
    var duration := Seconds(start, now);
    if duration > 5 && hasUser then Some(duration) else None
  }

  /** A duration is reported exactly when a user is signed in and at least six whole seconds passed. */
  lemma ReportThreshold(start: int, now: int, hasUser: bool)
    ensures Report(start, now, hasUser).Some? <==> hasUser && now - start >= 6000
    ensures Report(start, now, hasUser).Some? ==> Report(start, now, hasUser).value * 1000 <= now - start
  {
    var d := now - start;
    assert d == (d / 1000) * 1000 + d % 1000 && 0 <= d % 1000 < 1000;
  }

  /** The result of the vote request. */
  datatype VoteOutcome = Accepted | NotOk | Threw

  class CardState {
    var currentVote: int
    var isReading: bool
    var readingStartTime: Option<int>

    /** Lines 17-21: `userVote` defaults to 0 when the article carries no vote. */
    constructor(userVote: Option<int>)
      ensures currentVote == userVote.GetOr(0)
      ensures !isReading && readingStartTime == None
    {
      currentVote := userVote.GetOr(0);
      isReading := false;
      readingStartTime := None;
    }

    /** Lines 23-25: a new `userVote` prop replaces the current vote. */
    method SyncUserVote(userVote: Option<int>)
      modifies this
      ensures currentVote == userVote.GetOr(0)
      ensures isReading == old(isReading) && readingStartTime == old(readingStartTime)
    {
      currentVote := userVote.GetOr(0);
    }

    /**
     * Lines 46-70: `handleVote(value)`. Without a session nothing happens;
     * otherwise the toggled vote is shown and sent, and put back to the
     * previous vote when the response is not OK or the request throws. `sent`
     * is the value posted to `/api/vote`.
     */
    method HandleVote(hasSession: bool, value: int, outcome: VoteOutcome) returns (sent: Option<int>)
      modifies this
      ensures !hasSession ==> sent == None && currentVote == old(currentVote)
      ensures hasSession ==> sent == Some(Toggle(old(currentVote), value))
      ensures hasSession ==> currentVote == if outcome == Accepted then Toggle(old(currentVote), value) else old(currentVote)
      ensures isReading == old(isReading) && readingStartTime == old(readingStartTime)
    {
      if !hasSession {
        return None;
      }
      var previousVote := currentVote;
      var newVote := if currentVote == value then 0 else value;
      currentVote := newVote;
      sent := Some(newVote);
      if outcome != Accepted {
        currentVote := previousVote;
      }
    }

    /** Lines 72-74: the dialog's own vote buttons report the new vote. */
    method HandleVoteChange(newVote: int)
      modifies this
      ensures currentVote == newVote
      ensures isReading == old(isReading) && readingStartTime == old(readingStartTime)
    {
      currentVote := newVote;
    }

    /** `onOpenChange={setIsReading}`. */
    method SetIsReading(open: bool)
      modifies this
      ensures isReading == open
      ensures currentVote == old(currentVote) && readingStartTime == old(readingStartTime)
    {
      isReading := open;
    }

    /**
     * Lines 27-44: one run of the reading effect. Opening with no start time
     * records `now`; closing with a start time reports the duration when it is
     * over five seconds and a user is signed in, and always clears the start
     * time. `report` is the duration posted to `/api/reading-time`.
     */
    method ReadingEffect(now: int, hasUser: bool) returns (report: Option<int>)
      modifies this
      ensures isReading && Falsy(old(readingStartTime)) ==> readingStartTime == Some(now) && report == None
      ensures !isReading && !Falsy(old(readingStartTime)) ==>
                readingStartTime == None && report == Report(old(readingStartTime).value, now, hasUser)
      ensures isReading != Falsy(old(readingStartTime)) ==>
                readingStartTime == old(readingStartTime) && report == None
      ensures currentVote == old(currentVote) && isReading == old(isReading)
    {
      report := None;
      if isReading && (readingStartTime.None? || readingStartTime.value == 0) {
        readingStartTime := Some(now);
      } else if !isReading && !(readingStartTime.None? || readingStartTime.value == 0) {
        var duration := (now - readingStartTime.value) / 1000;
        if duration > 5 && hasUser {
          report := Some(duration);
        }
        readingStartTime := None;
      }
    }
  }
}
