/**
 * The retry limiter of `view_or_edit_profile`. Two session values, the retry
 * count and the time of the last attempt, decide whether a profile form POST
 * is processed: after five failed attempts further POSTs are refused until
 * ten minutes have passed since the last recorded attempt. Time is an integer
 * clock in microseconds, the resolution of the timestamps the session keeps.
 */
module ProfileEdit {
  import opened Wrappers

  /** Ten minutes, in microseconds. */
  const ResetWindow := 600_000_000

  /** The number of failed attempts after which POSTs are refused. */
  const MaxRetries := 5

  /** `Post`, or any other method, which the view answers like a GET. */
  datatype HttpMethod = Other | Post

  /** A request to the profile page: its HTTP method, whether the submitted form validates, and the clock reading. */
  datatype Request = Request(verb: HttpMethod, formValid: bool, now: int)

  /** What the page reports. */
  datatype Outcome =
    | Shown              // any method other than POST: the form is displayed
    | Blocked            // "Max retry limit reached"
    | Saved              // "Profile updated successfully"
    | Rejected(attempt: int) // "Failed to update profile. Attempt <attempt> of 5."

  /** The session state: the retry count (0 when absent) and the last attempt time, if any. */
  datatype Limiter = Limiter(retryCount: int, lastAttempt: Option<int>)

  /** A state and a report. */
  datatype Handled = Handled(state: Limiter, outcome: Outcome)

  /** The count the session holds after the reset that a request more than ten minutes after the last attempt causes. */
  function Refreshed(s: Limiter, now: int): Limiter
  {
    if s.lastAttempt.Some? && now - s.lastAttempt.value > ResetWindow then s.(retryCount := 0) else s
  }

  /** The effect of one request on the session, and what the page reports. */
  function Next(s: Limiter, r: Request): Handled
  {
    var t := Refreshed(s, r.now);
    if r.verb != Post then Handled(t, Shown)
    else if t.retryCount >= MaxRetries then Handled(t, Blocked)
    else if r.formValid then Handled(Limiter(0, Some(r.now)), Saved)
    else Handled(Limiter(t.retryCount + 1, Some(r.now)), Rejected(t.retryCount + 1))
  }

  /** The session after a sequence of requests, in order. */
  function Replay(s: Limiter, requests: seq<Request>): Limiter
    decreases |requests|
  {
    if requests == [] then s else Next(Replay(s, requests[..|requests| - 1]), requests[|requests| - 1]).state
  }

  /** The range of counts the session can hold. */
  predicate InRange(s: Limiter)
  {
    0 <= s.retryCount <= MaxRetries
  }

  /** A request more than ten minutes after the last attempt starts from a count of 0: it is never refused, and leaves at most one failure. */
  lemma {:induction false} ResetAfterWindow(s: Limiter, r: Request)
    requires s.lastAttempt.Some? && r.now - s.lastAttempt.value > ResetWindow
    ensures Next(s, r).outcome != Blocked
    ensures r.verb != Post ==> Next(s, r).state == Limiter(0, s.lastAttempt)
    ensures r.verb == Post ==> Next(s, r).state == Limiter(if r.formValid then 0 else 1, Some(r.now))
  {
  }

  /**
   * A POST while five or more failures are on record, within ten minutes of
   * the last attempt, is refused and changes neither the count nor the time.
   */
  lemma {:induction false} BlockedPostUnchanged(s: Limiter, r: Request)
    requires r.verb == Post && s.retryCount >= MaxRetries
    requires s.lastAttempt.None? || r.now - s.lastAttempt.value <= ResetWindow
    ensures Next(s, r) == Handled(s, Blocked)
  {
  }

  /** A POST that is not refused: a valid form clears the count, an invalid one adds a failure; both stamp the time. */
  lemma {:induction false} PostAccepted(s: Limiter, r: Request)
    requires r.verb == Post && Refreshed(s, r.now).retryCount < MaxRetries
    ensures r.formValid ==> Next(s, r) == Handled(Limiter(0, Some(r.now)), Saved)
    ensures !r.formValid ==> Next(s, r) == Handled(Limiter(Refreshed(s, r.now).retryCount + 1, Some(r.now)), Rejected(Refreshed(s, r.now).retryCount + 1))
  {
  }

  /** A POST is refused exactly when, after the reset, five failures are on record. */
  lemma {:induction false} BlockedIff(s: Limiter, r: Request)
    requires r.verb == Post
    ensures Next(s, r).outcome == Blocked <==>
      s.retryCount >= MaxRetries && (s.lastAttempt.None? || r.now - s.lastAttempt.value <= ResetWindow)
  {
  }

  /** One request keeps the count between 0 and 5. */
  lemma {:induction false} NextInRange(s: Limiter, r: Request)
    requires InRange(s)
    ensures InRange(Next(s, r).state)
  {
  }

  /** Hence the count never exceeds 5, whatever the requests. */
  lemma {:induction false} ReplayInRange(s: Limiter, requests: seq<Request>)
    requires InRange(s)
    decreases |requests|
    ensures InRange(Replay(s, requests))
  {
    if requests != [] {
      ReplayInRange(s, requests[..|requests| - 1]);
      NextInRange(Replay(s, requests[..|requests| - 1]), requests[|requests| - 1]);
    }
  }

  /** A run of invalid POSTs, each less than ten minutes after the one before. */
  predicate FailedRun(requests: seq<Request>)
  {
    (forall i :: 0 <= i < |requests| ==> requests[i].verb == Post && !requests[i].formValid)
    && (forall i :: 0 < i < |requests| ==> requests[i].now - requests[i - 1].now <= ResetWindow)
  }

  /** In a fresh session, up to five such failures are counted one by one, each stamping its time. */
  lemma {:induction false} FailuresAccumulate(requests: seq<Request>)
    requires |requests| <= MaxRetries && FailedRun(requests)
    decreases |requests|
    ensures Replay(Limiter(0, None), requests) ==
      if requests == [] then Limiter(0, None) else Limiter(|requests|, Some(requests[|requests| - 1].now))
  {
    if requests != [] {
      var init := requests[..|requests| - 1];
      FailuresAccumulate(init);
    }
  }

  /**
   * Five failures in a fresh session, each within ten minutes of the one
   * before, lock the form: a sixth POST within ten minutes of the fifth is
   * refused.
   */
  lemma {:induction false} FiveFailuresBlock(requests: seq<Request>, r: Request)
    requires |requests| == MaxRetries && FailedRun(requests)
    requires r.verb == Post && r.now - requests[MaxRetries - 1].now <= ResetWindow
    ensures Next(Replay(Limiter(0, None), requests), r).outcome == Blocked
  {
    FailuresAccumulate(requests);
  }

  /** The session of one user. */
  class ProfileSession {
    var retryCount: int
    var lastAttempt: Option<int>

    /** The view keeps the count between 0 and 5. */
    ghost predicate Valid()
      reads this
    {
      InRange(Limiter(retryCount, lastAttempt))
    }

    /** A session that has not seen the profile form yet. */
    constructor ()
      ensures Valid()
      ensures retryCount == 0 && lastAttempt == None
    {
      retryCount := 0;
      lastAttempt := None;
    }

    /** `view_or_edit_profile`, as far as the retry counter goes. */
    method HandleRequest(r: Request) returns (outcome: Outcome)
      requires Valid()
      modifies this
      ensures Valid()
      ensures Handled(Limiter(retryCount, lastAttempt), outcome) == Next(Limiter(old(retryCount), old(lastAttempt)), r)
    {
      var count := retryCount;
      if lastAttempt.Some? {
        var elapsed := r.now - lastAttempt.value;
        if elapsed > ResetWindow {
          count := 0;
          retryCount := 0;
        }
      }
      if r.verb == Post {
        if count >= MaxRetries {
          outcome := Blocked;
        } else if r.formValid {
          retryCount := 0;
          lastAttempt := Some(r.now);
          outcome := Saved;
        } else {
          count := count + 1;
          retryCount := count;
          lastAttempt := Some(r.now);
          outcome := Rejected(count);
        }
      } else {
        outcome := Shown;
      }
    }
  }
}
