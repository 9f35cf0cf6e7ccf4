/** Waiting for a provider job (nmc_client/src/Core/CloudAPIClient.cpp, `waitForProviderComputeJob`). */
module JobPolling {
  import opened Sequences

  const DEADLINE_MS: nat := 900000
  const FIRST_DELAY_MS: nat := 250
  const LONGEST_DELAY_MS: nat := 2000
  const MAX_POLLS: nat := 453

  datatype JobState = Succeeded | FailedJob | OutcomeUnknown | Cancelled | Queued | Running | Unsupported

  /** resultSuccess: `result.success` is present and is the boolean true; httpStatus: `result.http_status`,
      if it is an integer. */
  datatype Body = Empty | NotJson | Job(state: JobState, resultSuccess: bool, httpStatus: Option<int>)

  datatype Reply = NoReply | Http(status: int, body: Body)

  /** The status code of a failure; none is set when a reply other than 200 is passed on. */
  datatype Verdict = Success | Failure(code: Option<int>)

  function JobFailure(b: Body): Verdict
    requires b.Job?
  {
    Failure(Some(if b.httpStatus.Some? then b.httpStatus.value else 500))
  }

  /** What one poll decides; None means wait and poll again. */
  function Decide(r: Reply): Option<Verdict> {
    if r.NoReply? then Some(Failure(Some(503)))
    else if r.status != 200 then
      Some(if 200 <= r.status < 300 && !r.body.NotJson? then Success else Failure(None))
    else if !r.body.Job? then Some(Failure(Some(502)))
    else match r.body.state
      case Succeeded => Some(if r.body.resultSuccess then Success else JobFailure(r.body))
      case FailedJob => Some(JobFailure(r.body))
      case OutcomeUnknown => Some(JobFailure(r.body))
      case Cancelled => Some(JobFailure(r.body))
      case Queued => None
      case Running => None
      case Unsupported => Some(Failure(Some(502)))
  }

  function DelayAfter(i: nat): nat {
    if i == 0 then FIRST_DELAY_MS
    else if 2 * DelayAfter(i - 1) < LONGEST_DELAY_MS then 2 * DelayAfter(i - 1) else LONGEST_DELAY_MS
  }

  function Pow2(i: nat): nat {
    if i == 0 then 1 else 2 * Pow2(i - 1)
  }

  /** The i-th delay is 250 * 2^i milliseconds, capped at two seconds. */
  lemma {:induction false} DelayIsCappedDoubling(i: nat)
    ensures DelayAfter(i) == if 250 * Pow2(i) < 2000 then 250 * Pow2(i) else 2000
  {
    if i > 0 { DelayIsCappedDoubling(i - 1); }
  }

  /** Time asked for by the first n sleeps. */
  function Slept(n: nat): nat {
    if n == 0 then 0 else Slept(n - 1) + DelayAfter(n - 1)
  }

  lemma {:induction false} SleptClosedForm(n: nat)
    requires n >= 3
    ensures Slept(n) == 1750 + (n - 3) * 2000 && DelayAfter(n) == 2000
  {
    if n == 3 {
      assert DelayAfter(0) == 250 && DelayAfter(1) == 500 && DelayAfter(2) == 1000;
      assert Slept(1) == 250 && Slept(2) == 750;
    } else {
      SleptClosedForm(n - 1);
    }
  }

  /** Time that has passed before the n-th poll. */
  function Elapsed(pollTime: nat -> nat, sleepTime: nat -> nat, n: nat): nat {
    if n == 0 then 0 else Elapsed(pollTime, sleepTime, n - 1) + pollTime(n - 1) + sleepTime(n - 1)
  }

  /** Polls take no time and each sleep takes what was asked. */
  ghost predicate NoDelay(pollTime: nat -> nat, sleepTime: nat -> nat) {
    forall i: nat :: pollTime(i) == 0 && sleepTime(i) == DelayAfter(i)
  }

  lemma {:induction false} ElapsedIsSlept(pollTime: nat -> nat, sleepTime: nat -> nat, n: nat)
    requires NoDelay(pollTime, sleepTime)
    ensures Elapsed(pollTime, sleepTime, n) == Slept(n)
  {
    if n > 0 { ElapsedIsSlept(pollTime, sleepTime, n - 1); }
  }

  lemma {:induction false} SleptGrows(m: nat, n: nat)
    requires m <= n
    ensures Slept(m) <= Slept(n)
    decreases n
  {
    if m < n { SleptGrows(m, n - 1); }
  }

  /** A 200 reply whose job is not finished: the only reply after which the client polls again. */
  predicate StillRunning(r: Reply) {
    r.Http? && r.status == 200 && r.body.Job? && (r.body.state == Queued || r.body.state == Running)
  }

  ghost predicate AllRunning(replies: nat -> Reply) {
    forall i: nat :: StillRunning(replies(i))
  }

  /** Without delays and decisions the loop makes all its polls: fewer do not reach the deadline. */
  lemma NoPollIsMissing(replies: nat -> Reply, pollTime: nat -> nat, sleepTime: nat -> nat, polls: nat)
    requires 0 < polls <= MAX_POLLS
    requires StillRunning(replies(polls - 1)) ==> Elapsed(pollTime, sleepTime, polls) >= DEADLINE_MS
    ensures AllRunning(replies) && NoDelay(pollTime, sleepTime) ==> polls == MAX_POLLS
  {
    if AllRunning(replies) && NoDelay(pollTime, sleepTime) {
      ElapsedIsSlept(pollTime, sleepTime, polls);
      SleptClosedForm(MAX_POLLS - 1);
      if polls < MAX_POLLS { SleptGrows(polls, MAX_POLLS - 1); }
    }
  }

  lemma NothingYet(pollTime: nat -> nat, sleepTime: nat -> nat)
    ensures Elapsed(pollTime, sleepTime, 0) == 0 == Slept(0) && DelayAfter(0) == FIRST_DELAY_MS
  {
  }

  lemma NextPoll(pollTime: nat -> nat, sleepTime: nat -> nat, n: nat)
    ensures Elapsed(pollTime, sleepTime, n + 1) == Elapsed(pollTime, sleepTime, n) + pollTime(n) + sleepTime(n)
    ensures Slept(n + 1) == Slept(n) + DelayAfter(n)
    ensures DelayAfter(n + 1)
         == if 2 * DelayAfter(n) < LONGEST_DELAY_MS then 2 * DelayAfter(n) else LONGEST_DELAY_MS
  {
  }

  /** The poll loop. Replies, the duration of each poll and of each sleep come from outside, in
      milliseconds; a sleep is never shorter than asked. */
  method WaitForJob(replies: nat -> Reply, pollTime: nat -> nat, sleepTime: nat -> nat)
    returns (verdict: Verdict, polls: nat)
    requires forall i: nat :: sleepTime(i) >= DelayAfter(i)
    ensures 0 < polls <= 453
    ensures forall i: nat | i < polls :: Elapsed(pollTime, sleepTime, i) < 15 * 60 * 1000
    ensures forall i: nat | i < polls - 1 :: StillRunning(replies(i))
    ensures var last := replies(polls - 1);
      && (StillRunning(last) ==> verdict == Failure(Some(504)) && Elapsed(pollTime, sleepTime, polls) >= 15 * 60 * 1000)
      && (!StillRunning(last) ==> VerdictFits(last, verdict))
    ensures AllRunning(replies) && NoDelay(pollTime, sleepTime) ==> polls == 453
  {
    hide NoDelay, AllRunning, Decide, StillRunning, VerdictFits, Elapsed, Slept, DelayAfter;
    NothingYet(pollTime, sleepTime);
    var now, pollDelay := 0, FIRST_DELAY_MS;
    polls := 0;
    while now < DEADLINE_MS
      invariant pollDelay == DelayAfter(polls) && now >= Slept(polls)
      invariant now == Elapsed(pollTime, sleepTime, polls)
      invariant forall i: nat | i < polls :: Elapsed(pollTime, sleepTime, i) < DEADLINE_MS
      invariant forall i: nat | i < polls :: StillRunning(replies(i))
      invariant polls <= MAX_POLLS
      decreases DEADLINE_MS - now
    {
      if polls >= 3 { SleptClosedForm(polls); }
      var r := replies(polls);
      now := now + pollTime(polls);
      polls := polls + 1;
      var d := Decide(r);
      DecisionFits(r);
      if d.Some? {
        NoPollIsMissing(replies, pollTime, sleepTime, polls);
        return d.value, polls;
      }
      DelayIsPositive(polls - 1);
      NextPoll(pollTime, sleepTime, polls - 1);
      now := now + sleepTime(polls - 1);
      pollDelay := if 2 * pollDelay < LONGEST_DELAY_MS then 2 * pollDelay else LONGEST_DELAY_MS;
    }
    verdict := Failure(Some(504));
    NoPollIsMissing(replies, pollTime, sleepTime, polls);
  }

  lemma {:induction false} DelayIsPositive(i: nat)
    ensures DelayAfter(i) > 0
  {
    if i > 0 { DelayIsPositive(i - 1); }
  }

  /** What a client learns from the reply that ends the wait, read off the reply alone. */
  ghost predicate VerdictFits(r: Reply, v: Verdict) {
    && (r.NoReply? ==> v == Failure(Some(503)))
    && (r.Http? && r.status == 200 && (!r.body.Job? || r.body.state == Unsupported) ==> v == Failure(Some(502)))
    && (r.Http? && r.status == 200 && r.body.Job? && r.body.state != Unsupported ==>
          && (v == Success <==> r.body.state == Succeeded && r.body.resultSuccess)
          && (v != Success ==> v.code.Some? && (r.body.httpStatus == v.code || (r.body.httpStatus.None? && v.code == Some(500)))))
    && (r.Http? && r.status != 200 ==>
          if r.status < 200 || r.status >= 300 || r.body.NotJson? then v == Failure(None) else v == Success)
  }

  lemma DecisionFits(r: Reply)
    ensures Decide(r).None? <==> StillRunning(r)
    ensures Decide(r).Some? ==> VerdictFits(r, Decide(r).value)
  {
  }

  /** Success is reported exactly for a poll that shows the job succeeded with a successful result, or
      that has another 2xx status and a body that is empty or JSON. */
  lemma SuccessIff(r: Reply)
    ensures VerdictFits(r, Success) && !StillRunning(r) <==>
      r.Http? && (|| (r.status == 200 && r.body.Job? && r.body.state == Succeeded && r.body.resultSuccess)
                  || (r.status != 200 && 200 <= r.status < 300 && !r.body.NotJson?))
  {
  }

  /** So a bodiless 204 answer to a poll is reported as success although no job state was seen. */
  lemma NoContentCountsAsSuccess()
    ensures Decide(Http(204, Empty)) == Some(Success)
    ensures Decide(Http(204, Job(Running, false, None))) == Some(Success)
  {
  }
}
