/**
 * The webhook delivery retry loop (`post_to_teams`). The network is a
 * scripted oracle: `network(k)` is what the k-th attempt yields. Sleeping
 * is not performed; the loop reports the back-off pauses it would take.
 */
module Delivery {

  /** What one attempt to post yields. */
  datatype Outcome =
    | Response(status: int) // urlopen returned; the status may still be outside 2xx
    | HttpError(code: int)  // urlopen raised HTTPError with this code
    | UrlError              // urlopen raised another URLError (network level)

  /** HTTP codes that are retried after a back-off. */
  const RetryableCodes: set<int> := {429, 500, 502, 503, 504}

  /** The number of attempts `post_to_teams` makes by default. */
  const DefaultRetries := 3

  predicate Is2xx(status: int) {
    200 <= status < 300
  }

  /** The attempt delivered the message. */
  predicate Succeeds(o: Outcome) {
    o.Response? && Is2xx(o.status)
  }

  /** An attempt that, when it is not the last one allowed, is followed by
      another attempt. */
  predicate Retried(o: Outcome) {
    match o
    case Response(status) => !Is2xx(status)
    case HttpError(code) => code in RetryableCodes
    case UrlError => true
  }

  /** An attempt after which the loop pauses before the next one. */
  predicate BacksOff(o: Outcome) {
    o.HttpError? || o.UrlError?
  }

  function Pow2(n: nat): (r: nat)
    ensures r >= 1
  {
    if n == 0 then 1 else 2 * Pow2(n - 1)
  }

  /** A pause of `seconds` taken after attempt `afterAttempt` failed. */
  datatype Pause = Pause(afterAttempt: nat, seconds: nat)

  /** Whether the message was delivered, how many attempts were made, and the
      pauses taken between them. */
  datatype Report = Report(ok: bool, attempts: nat, pauses: seq<Pause>)

  function WithPauses(pre: seq<Pause>, r: Report): Report {
    Report(r.ok, r.attempts, pre + r.pauses)
  }

  /** The loop from attempt `attempt` on, with at most `maxRetries` attempts
      in all. */
  function Run(network: nat -> Outcome, maxRetries: int, attempt: nat): Report
    requires attempt >= 1
    decreases maxRetries - attempt + 1
  {
    if attempt > maxRetries then Report(false, attempt - 1, [])
    else
      match network(attempt)
      case Response(status) =>
        if Is2xx(status) then Report(true, attempt, [])
        else Run(network, maxRetries, attempt + 1)
      case HttpError(code) =>
        if code in RetryableCodes && attempt < maxRetries
        then WithPauses([Pause(attempt, Pow2(attempt))], Run(network, maxRetries, attempt + 1))
        else Report(false, attempt, [])
      case UrlError =>
        if attempt < maxRetries
        then WithPauses([Pause(attempt, Pow2(attempt))], Run(network, maxRetries, attempt + 1))
        else Report(false, attempt, [])
  }

  /** `post_to_teams`: the `for attempt in range(1, max_retries + 1)` loop. */
  method PostToTeams(network: nat -> Outcome, maxRetries: int) returns (r: Report)
    ensures r == Run(network, maxRetries, 1)
    ensures r.ok <==> r.attempts >= 1 && Succeeds(network(r.attempts))
    ensures r.attempts <= if maxRetries < 0 then 0 else maxRetries
  {
    RunSummary(network, maxRetries);
    var pauses: seq<Pause> := [];
    var attempt: nat := 1;
    while attempt <= maxRetries
      invariant attempt >= 1
      invariant Run(network, maxRetries, 1) == WithPauses(pauses, Run(network, maxRetries, attempt))
      decreases maxRetries - attempt + 1
    {
      RunAt(network, maxRetries, attempt, pauses);
      var o := network(attempt);
      if o.Response? {
        if Is2xx(o.status) {
          return Report(true, attempt, pauses);
        }
      } else if o.HttpError? {
        if !(o.code in RetryableCodes && attempt < maxRetries) {
          return Report(false, attempt, pauses);
        }
        pauses := pauses + [Pause(attempt, Pow2(attempt))];
      } else {
        if !(attempt < maxRetries) {
          return Report(false, attempt, pauses);
        }
        pauses := pauses + [Pause(attempt, Pow2(attempt))];
      }
      attempt := attempt + 1;
    }
    assert pauses + [] == pauses;
    return Report(false, attempt - 1, pauses);
  }

  /** One attempt of the loop, after the pauses `pauses` were taken. */
  lemma RunAt(network: nat -> Outcome, maxRetries: int, attempt: nat, pauses: seq<Pause>)
    requires 1 <= attempt <= maxRetries
    ensures var o, here := network(attempt), WithPauses(pauses, Run(network, maxRetries, attempt));
      && (Succeeds(o) ==> here == Report(true, attempt, pauses))
      && (o.Response? && !Is2xx(o.status) ==> here == WithPauses(pauses, Run(network, maxRetries, attempt + 1)))
      && (BacksOff(o) && Retried(o) && attempt < maxRetries ==>
            here == WithPauses(pauses + [Pause(attempt, Pow2(attempt))], Run(network, maxRetries, attempt + 1)))
      && (BacksOff(o) && !(Retried(o) && attempt < maxRetries) ==> here == Report(false, attempt, pauses))
  {
    assert pauses + [] == pauses;
    var next := Run(network, maxRetries, attempt + 1);
    assert pauses + ([Pause(attempt, Pow2(attempt))] + next.pauses)
           == (pauses + [Pause(attempt, Pow2(attempt))]) + next.pauses;
  }

  /** Where the loop stops: every attempt before the last one made was
      retried, the last one is either the last allowed or not retried, and
      the message was delivered exactly when that last attempt succeeded. */
  lemma {:induction false} RunStops(network: nat -> Outcome, maxRetries: int, attempt: nat)
    requires attempt >= 1
    decreases maxRetries - attempt + 1
    ensures var r := Run(network, maxRetries, attempt);
      && attempt - 1 <= r.attempts <= (if maxRetries < attempt then attempt - 1 else maxRetries)
      && (r.ok <==> r.attempts >= attempt && Succeeds(network(r.attempts)))
      && (forall j :: attempt <= j < r.attempts ==> Retried(network(j)) && !Succeeds(network(j)))
      && (r.attempts >= attempt ==> r.attempts == maxRetries || !Retried(network(r.attempts)))
      && (r.attempts == attempt - 1 <==> maxRetries < attempt)
  {
    if attempt <= maxRetries {
      RunStops(network, maxRetries, attempt + 1);
    }
  }

  /** The loop's result in brief: delivered exactly when its last attempt
      succeeded, and no more attempts than allowed. */
  lemma RunSummary(network: nat -> Outcome, maxRetries: int)
    ensures var r := Run(network, maxRetries, 1);
      && (r.ok <==> r.attempts >= 1 && Succeeds(network(r.attempts)))
      && r.attempts <= (if maxRetries < 0 then 0 else maxRetries)
  {
    RunStops(network, maxRetries, 1);
  }

  /** Every pause follows an attempt that raised, comes before the last
      allowed attempt, and lasts `2^attempt` seconds; the pauses are taken
      in attempt order. */
  lemma {:induction false} RunPauses(network: nat -> Outcome, maxRetries: int, attempt: nat)
    requires attempt >= 1
    decreases maxRetries - attempt + 1
    ensures var r := Run(network, maxRetries, attempt);
      && (forall i :: 0 <= i < |r.pauses| ==>
            var p := r.pauses[i];
            && attempt <= p.afterAttempt < r.attempts
            && p.afterAttempt < maxRetries
            && p.seconds == Pow2(p.afterAttempt)
            && BacksOff(network(p.afterAttempt)))
      && (forall i, j :: 0 <= i < j < |r.pauses| ==> r.pauses[i].afterAttempt < r.pauses[j].afterAttempt)
  {
    if attempt <= maxRetries {
      RunPauses(network, maxRetries, attempt + 1);
      RunStops(network, maxRetries, attempt + 1);
    }
  }

  /** Conversely, every attempt that raised and was not the last one made
      is followed by its pause of `2^attempt` seconds. */
  lemma {:induction false} RunPausesComplete(network: nat -> Outcome, maxRetries: int, attempt: nat)
    requires attempt >= 1
    decreases maxRetries - attempt + 1
    ensures var r := Run(network, maxRetries, attempt);
      forall j :: attempt <= j < r.attempts && BacksOff(network(j)) ==> Pause(j, Pow2(j)) in r.pauses
  {
    if attempt <= maxRetries {
      RunPausesComplete(network, maxRetries, attempt + 1);
      RunStops(network, maxRetries, attempt + 1);
    }
  }

  /** A message is delivered exactly when some allowed attempt succeeds and
      every attempt before it was retried. */
  lemma {:induction false} RunDelivers(network: nat -> Outcome, maxRetries: int, attempt: nat)
    requires attempt >= 1
    decreases maxRetries - attempt + 1
    ensures Run(network, maxRetries, attempt).ok <==>
            exists k :: attempt <= k <= maxRetries && Succeeds(network(k))
                        && forall j :: attempt <= j < k ==> Retried(network(j))
  {
    var r := Run(network, maxRetries, attempt);
    RunStops(network, maxRetries, attempt);
    if r.ok {
      assert attempt <= r.attempts <= maxRetries && Succeeds(network(r.attempts));
    }
    if exists k :: attempt <= k <= maxRetries && Succeeds(network(k))
                   && forall j :: attempt <= j < k ==> Retried(network(j)) {
      var k :| attempt <= k <= maxRetries && Succeeds(network(k))
               && forall j :: attempt <= j < k ==> Retried(network(j));
      assert r.attempts == k;
    }
  }

  /** An HTTP error outside the retryable codes ends the loop at that
      attempt, without delivery, however many attempts were still allowed. */
  lemma PermanentErrorStops(network: nat -> Outcome, maxRetries: int, k: nat)
    requires 1 <= k <= maxRetries
    requires forall j :: 1 <= j < k ==> Retried(network(j))
    requires network(k).HttpError? && network(k).code !in RetryableCodes
    ensures var r := Run(network, maxRetries, 1); !r.ok && r.attempts == k
  {
    RunStops(network, maxRetries, 1);
  }

  /** A transient error on the first of three attempts followed by a success:
      one pause of two seconds, delivered on the second attempt. */
  lemma RetryExample(network: nat -> Outcome)
    requires network(1) == HttpError(503) && network(2) == Response(200)
    ensures Run(network, DefaultRetries, 1) == Report(true, 2, [Pause(1, 2)])
  {
  }

  /** The network failing on every attempt: three attempts, pauses of two and
      four seconds, no delivery. */
  lemma OutageExample(network: nat -> Outcome)
    requires forall k :: network(k) == UrlError
    ensures Run(network, DefaultRetries, 1) == Report(false, 3, [Pause(1, 2), Pause(2, 4)])
  {
  }
}
