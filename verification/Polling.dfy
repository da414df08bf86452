/** Polling for the decision on a live preview. */
module Polling {
  import opened Wrappers

  /** The outcome of one poll; `approval` stands for the approved configuration. */
  datatype Poll = Pending | Approved(approval: string) | Rejected(code: string)

  /** The server's answer to a poll: its HTTP status, and the body fields that matter. */
  datatype Answer = Answer(status: int, configuration: Option<string>, code: Option<string>)

  /** `None` where polling throws. */
  function PollResult(answer: Answer): Option<Poll> {
    if answer.status == 202 then Some(Pending)
    else if answer.status == 200 && answer.configuration.Some? then Some(Approved(answer.configuration.value))
    else if answer.status in {403, 404, 410} then
      Some(Rejected(if answer.code.Some? then answer.code.value else "invalid_preview"))
    else None
  }

  /** The interval of a started preview, in seconds. */
  function ClampInterval(interval: int): (r: int)
    ensures r >= 1 && r >= interval && r in {1, interval}
  {
    if interval < 1 then 1 else interval
  }

  /** `(expiresIn / pollInterval).ceil()`. */
  function Attempts(expiresIn: int, interval: int): int
    requires interval >= 1
  {
    -((-expiresIn) / interval)
  }

  lemma AttemptsIsCeiling(expiresIn: int, interval: int)
    requires interval >= 1
    ensures (Attempts(expiresIn, interval) - 1) * interval < expiresIn <= Attempts(expiresIn, interval) * interval
  {
    var q := (-expiresIn) / interval;
    assert -expiresIn == q * interval + (-expiresIn) % interval;
    assert (Attempts(expiresIn, interval) - 1) * interval == -(q * interval) - interval;
    assert Attempts(expiresIn, interval) * interval == -(q * interval);
  }

  /** Sleeping once more than the attempts outlasts the expiry, by less than two intervals. */
  lemma GivesUpInTime(expiresIn: int, interval: int)
    requires interval >= 1 && expiresIn >= 0
    ensures Attempts(expiresIn, interval) >= 0
    ensures expiresIn + interval <= (Attempts(expiresIn, interval) + 1) * interval < expiresIn + 2 * interval
  {
    var n := Attempts(expiresIn, interval);
    AttemptsIsCeiling(expiresIn, interval);
    OneMore(n, interval);
    OneMore(n - 1, interval);
  }

  lemma OneMore(n: int, interval: int)
    ensures (n + 1) * interval == n * interval + interval
  {
  }

  /** The last result, how often was polled, and for how many seconds the loop slept. */
  datatype Waited = Waited(result: Option<Poll>, polls: nat, slept: int)

  const EXPIRED := Rejected("expired_preview")

  /**
   * Polls until an answer is no longer pending (HTTP status 202) or the attempts are used up. It
   * returns what the first such answer means, and gives up only after the preview has expired.
   */
  method WaitForDecision(expiresIn: int, pollInterval: int, answers: nat -> Answer) returns (w: Waited)
    ensures
      var p := ClampInterval(pollInterval);
      var n := Attempts(expiresIn, p);
      // Bounded: no more than the attempts and one.
      && w.polls <= (if n < 0 then 0 else n + 1)
      // The loop slept after each poll but a deciding one.
      && (forall k | 0 <= k < w.polls - 1 :: answers(k).status == 202)
      && (if w.polls > 0 && answers(w.polls - 1).status != 202
          then w.result == PollResult(answers(w.polls - 1)) && w.slept == (w.polls - 1) * p
          else w.result == Some(EXPIRED) && w.slept == w.polls * p && w.polls == (if n < 0 then 0 else n + 1))
    // What the deciding answer means.
    ensures w.polls > 0 && answers(w.polls - 1).status != 202 ==>
      var answer := answers(w.polls - 1);
      if answer.status == 200 && answer.configuration.Some? then
        w.result == Some(Approved(answer.configuration.value))
      else if answer.status == 403 || answer.status == 404 || answer.status == 410 then
        w.result == Some(Rejected(if answer.code.Some? then answer.code.value else "invalid_preview"))
      else w.result == None
    ensures
      var p := ClampInterval(pollInterval);
      // Not early: whoever gives up has slept through the expiry, but not for two intervals more.
      && expiresIn >= 0 && (forall k | 0 <= k < w.polls :: answers(k).status == 202)
      ==> w.result == Some(EXPIRED) && expiresIn + p <= w.slept < expiresIn + 2 * p
  {
    hide Attempts;
    var interval := ClampInterval(pollInterval);
    var attempts := Attempts(expiresIn, interval);
    if expiresIn >= 0 {
      GivesUpInTime(expiresIn, interval);
    }
    var polls, slept := 0, 0;
    var attempt := 0;
    while attempt <= attempts
      invariant 0 <= attempt && (attempts >= 0 ==> attempt <= attempts + 1) && (attempts < 0 ==> attempt == 0)
      invariant polls == attempt && slept == attempt * interval
      invariant forall k | 0 <= k < attempt :: answers(k).status == 202
    {
      var outcome := PollResult(answers(attempt));
      polls := polls + 1;
      if outcome != Some(Pending) {
        return Waited(outcome, polls, slept);
      }
      OneMore(attempt, interval);
      slept := slept + interval;
      attempt := attempt + 1;
    }
    return Waited(Some(EXPIRED), polls, slept);
  }
}
