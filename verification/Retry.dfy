/**
 Sending one batch with exponential backoff. Durations are nanoseconds; timers are exact, so the time
 since the start is what the sends took plus what was waited.
 */
module Retry {

  datatype Reply =
    | Delivered
    | Status(code: int, retryAfter: int)   // an HTTP status outside 200..299
    | Broken                               // any other error

  datatype Settings = Settings(enabled: bool, initial: int, maxInterval: int, maxElapsed: int)

  /** How the n-th send ends, how long it takes, and whether the wait after it is cancelled. */
  datatype World = World(reply: nat -> Reply, took: nat -> nat, cancelled: nat -> bool)

  const SECOND := 1_000_000_000
  const REQUEST_TIMEOUT := 408
  const TOO_MANY_REQUESTS := 429

  /** Delay before the first retry. */
  function Initial(c: Settings): (delay: nat)
    ensures delay > 0
  {
    if c.initial <= 0 then SECOND else c.initial
  }

  function Ceiling(c: Settings): (delay: nat)
    ensures delay > 0
  {
    if c.maxInterval <= 0 then 30 * SECOND else c.maxInterval
  }

  function Min(a: nat, b: nat): nat {
    if a < b then a else b
  }

  predicate Permanent(r: Reply) {
    r.Status? && r.code != REQUEST_TIMEOUT && r.code != TOO_MANY_REQUESTS && r.code < 500
  }

  function RetryAfter(r: Reply): int {
    if r.Status? then r.retryAfter else 0
  }

  function Longer(r: Reply, backoff: nat): nat {
    if RetryAfter(r) > backoff then RetryAfter(r) else backoff
  }

  /** The wait planned before the k-th send is known to have failed. */
  function Backoff(c: Settings, w: World, k: nat): (delay: nat)
    ensures delay >= Min(Initial(c), Ceiling(c)) > 0
    decreases k, 0
  {
    if k == 0 then Initial(c) else Min(Ceiling(c), 2 * Delay(c, w, k - 1))
  }

  /** The wait after the k-th send. */
  function Delay(c: Settings, w: World, k: nat): (delay: nat)
    ensures delay >= Min(Initial(c), Ceiling(c)) > 0
    decreases k, 1
  {
    Longer(w.reply(k), Backoff(c, w, k))
  }

  /** When the k-th send starts, counted from the first. */
  function Start(c: Settings, w: World, k: nat): nat {
    if k == 0 then 0 else Start(c, w, k - 1) + w.took(k - 1) + Delay(c, w, k - 1)
  }

  predicate WithinElapsed(c: Settings, w: World, k: nat) {
    c.maxElapsed <= 0 || Start(c, w, k + 1) <= c.maxElapsed
  }

  /** The k-th send failed in a way that is tried again, and there is time left to do so. */
  predicate Retried(c: Settings, w: World, k: nat) {
    && !w.reply(k).Delivered?
    && !Permanent(w.reply(k))
    && c.enabled
    && WithinElapsed(c, w, k)
    && !w.cancelled(k)
  }

  /** The k-th send failed for good: not to be tried again, or no retry fits into the time left. */
  predicate GivesUp(c: Settings, w: World, k: nat) {
    !w.reply(k).Delivered? && (Permanent(w.reply(k)) || !c.enabled || !WithinElapsed(c, w, k))
  }

  datatype Outcome = Sent | Failed(reply: Reply) | Cancelled | Unfinished

  lemma AtStart(c: Settings, w: World)
    ensures Backoff(c, w, 0) == Initial(c) && Start(c, w, 0) == 0
  {
  }

  lemma AfterReply(c: Settings, w: World, k: nat)
    ensures Start(c, w, k + 1) == Start(c, w, k) + w.took(k) + Delay(c, w, k)
    ensures Backoff(c, w, k + 1) == Min(Ceiling(c), 2 * Delay(c, w, k))
    ensures GivesUp(c, w, k)
            <==> !w.reply(k).Delivered? && (Permanent(w.reply(k)) || !c.enabled || !WithinElapsed(c, w, k))
    ensures Retried(c, w, k) <==> !w.reply(k).Delivered? && !GivesUp(c, w, k) && !w.cancelled(k)
  {
    hide Delay;
  }

  lemma LastRetried(c: Settings, w: World, sends: nat)
    ensures sends > 0 && Retried(c, w, sends - 1) ==> !w.reply(sends - 1).Delivered? && !GivesUp(c, w, sends - 1)
  {
  }

  /**
   The loop, watched for at most `horizon` sends. All sends but the last failed and were tried again.
   */
  method SendWithRetry(c: Settings, w: World, horizon: nat) returns (outcome: Outcome, sends: nat, waits: seq<nat>)
    ensures sends <= horizon && forall k | 0 <= k < sends - 1 :: Retried(c, w, k)
    ensures outcome == Unfinished ==> sends == horizon == |waits| && forall k | 0 <= k < sends :: Retried(c, w, k)
    ensures outcome != Unfinished ==> sends > 0 && !Retried(c, w, sends - 1)
    ensures outcome == Sent <==> sends > 0 && w.reply(sends - 1) == Delivered
    ensures outcome.Failed? ==> outcome.reply == w.reply(sends - 1)
    ensures outcome.Failed? <==> sends > 0 && GivesUp(c, w, sends - 1)
    ensures |waits| == if outcome == Sent || outcome.Failed? then sends - 1 else sends
    ensures forall k | 0 <= k < |waits| :: waits[k] == Delay(c, w, k)
  {
    hide Backoff, Start, Retried, GivesUp, Initial, Ceiling;
    sends, waits := 0, [];
    var elapsed, delay := 0, Initial(c);
    AtStart(c, w);
    while sends < horizon
      invariant sends <= horizon && |waits| == sends
      invariant delay == Backoff(c, w, sends) && elapsed == Start(c, w, sends)
      invariant forall k | 0 <= k < sends :: Retried(c, w, k) && waits[k] == Delay(c, w, k)
    {
      var reply := w.reply(sends);
      AfterReply(c, w, sends);
      elapsed := elapsed + w.took(sends);
      sends := sends + 1;
      if reply == Delivered {
        return Sent, sends, waits;
      }
      if reply.Status? {
        if reply.code != REQUEST_TIMEOUT && reply.code != TOO_MANY_REQUESTS && reply.code < 500 {
          return Failed(reply), sends, waits;
        }
        if reply.retryAfter > delay {
          delay := reply.retryAfter;
        }
      }
      if !c.enabled || (c.maxElapsed > 0 && elapsed + delay > c.maxElapsed) {
        return Failed(reply), sends, waits;
      }
      waits := waits + [delay];
      if w.cancelled(sends - 1) {
        return Cancelled, sends, waits;
      }
      elapsed := elapsed + delay;
      delay := Min(Ceiling(c), 2 * delay);
    }
    assert sends > 0 ==> Retried(c, w, sends - 1);
    LastRetried(c, w, sends);
    outcome := Unfinished;
  }

  lemma {:induction false} WaitedAtLeast(c: Settings, w: World, k: nat)
    ensures Start(c, w, k) >= k * Min(Initial(c), Ceiling(c))
  {
    hide Delay, Initial, Ceiling, Min;
    var smallest := Min(Initial(c), Ceiling(c));
    if k > 0 {
      assert k * smallest == (k - 1) * smallest + smallest;
      WaitedAtLeast(c, w, k - 1);
    }
  }

  lemma QuotientBound(n: nat, d: nat, total: nat)
    requires d > 0 && n * d <= total
    ensures n <= total / d
  {
    var q := total / d;
    assert total < (q + 1) * d;
    assert n > q ==> n * d >= (q + 1) * d;
  }

  /**
   With a limit, retries are at most the limit divided by the smallest possible delay, and every send
   starts within the limit. So the loop ends, whatever the server answers.
   */
  lemma RetriesAreBounded(c: Settings, w: World, k: nat)
    requires c.maxElapsed > 0 && Retried(c, w, k)
    ensures k + 1 <= c.maxElapsed / Min(Initial(c), Ceiling(c))
    ensures Start(c, w, k + 1) <= c.maxElapsed
  {
    hide Start, Initial, Ceiling, Min, Delay;
    WaitedAtLeast(c, w, k + 1);
    assert Delay(c, w, k) >= Min(Initial(c), Ceiling(c)) > 0;
    QuotientBound(k + 1, Min(Initial(c), Ceiling(c)), c.maxElapsed);
  }

  /**
   A failed send is tried again exactly for these statuses and for errors that are no status, if retries are
   on, the wait ends within the limit, and it is not cancelled.
   */
  lemma TriedAgainExactly(c: Settings, w: World, k: nat)
    ensures var passes := match w.reply(k)
              case Delivered => false
              case Broken => true
              case Status(code, _) => code == 408 || code == 429 || code >= 500;
            var again := passes && c.enabled
                         && (c.maxElapsed > 0 ==> Start(c, w, k) + w.took(k) + Delay(c, w, k) <= c.maxElapsed);
            && (Retried(c, w, k) <==> again && !w.cancelled(k))
            && (GivesUp(c, w, k) <==> w.reply(k) != Delivered && !again)
  {
    hide Delay;
    AfterReply(c, w, k);
  }

  // ----- the delays

  /** The first delay is the configured one or a second, the ceiling the configured one or thirty seconds. */
  lemma ConfiguredDelays(c: Settings, w: World)
    ensures Backoff(c, w, 0) == if c.initial > 0 then c.initial else 1_000_000_000
    ensures Ceiling(c) == if c.maxInterval > 0 then c.maxInterval else 30_000_000_000
  {
  }

  /**
   A wait is never shorter than the server asks for with a status, nor than the backoff, and is one of the
   two; the next backoff is twice the wait, up to the ceiling.
   */
  lemma DelayFollowsServer(c: Settings, w: World, k: nat)
    ensures Delay(c, w, k) >= Backoff(c, w, k)
    ensures w.reply(k).Status? ==> Delay(c, w, k) >= w.reply(k).retryAfter
    ensures Delay(c, w, k) == Backoff(c, w, k) || (w.reply(k).Status? && Delay(c, w, k) == w.reply(k).retryAfter)
    ensures Backoff(c, w, k + 1) <= Ceiling(c) && Backoff(c, w, k + 1) <= 2 * Delay(c, w, k)
    ensures Backoff(c, w, k + 1) == Ceiling(c) || Backoff(c, w, k + 1) == 2 * Delay(c, w, k)
  {
  }

  function Pow2(n: nat): (p: nat)
    ensures p > 0
  {
    if n == 0 then 1 else 2 * Pow2(n - 1)
  }

  /** No reply asked for a longer wait than the backoff. */
  ghost predicate NoRetryAfter(c: Settings, w: World) {
    forall k: nat :: RetryAfter(w.reply(k)) <= Backoff(c, w, k)
  }

  lemma Halves(a: nat, k: nat)
    requires k > 0
    ensures a * Pow2(k) == 2 * (a * Pow2(k - 1))
  {
  }

  /** Without Retry-After, the delays double up to the ceiling; the first is not cut. */
  lemma {:induction false} DelayDoubles(c: Settings, w: World, k: nat)
    requires NoRetryAfter(c, w)
    ensures Delay(c, w, k) == if k == 0 then Initial(c) else Min(Ceiling(c), Initial(c) * Pow2(k))
  {
    assert RetryAfter(w.reply(k)) <= Backoff(c, w, k);
    if k > 0 {
      DelayDoubles(c, w, k - 1);
      Halves(Initial(c), k);
    }
  }

  function TotalDelay(c: Settings, w: World, n: nat): nat {
    if n == 0 then 0 else TotalDelay(c, w, n - 1) + Delay(c, w, n - 1)
  }

  lemma AddUp(a: nat, p: nat)
    ensures a * (p - 1) + a * p == a * (2 * p - 1)
    ensures a * 1 == a
  {
  }

  /** As long as the ceiling is not reached, n delays add up to `Initial * (2^n - 1)`. */
  lemma {:induction false} UncappedDelaysSum(c: Settings, w: World, n: nat)
    requires NoRetryAfter(c, w) && (n > 0 ==> Initial(c) * Pow2(n - 1) <= Ceiling(c))
    ensures TotalDelay(c, w, n) == Initial(c) * (Pow2(n) - 1)
  {
    hide Delay, Backoff, Initial, Ceiling;
    if n > 0 {
      var p := Pow2(n - 1);
      if n > 1 {
        Halves(Initial(c), n - 1);
      }
      UncappedDelaysSum(c, w, n - 1);
      DelayDoubles(c, w, n - 1);
      assert n == 1 ==> p == 1;
      AddUp(Initial(c), p);
    }
  }

  /** A wait is longer than the ceiling exactly when the server asked for it, or it is the first one. */
  lemma CeilingHolds(c: Settings, w: World, k: nat)
    ensures Delay(c, w, k) > Ceiling(c)
            <==> RetryAfter(w.reply(k)) > Ceiling(c) || (k == 0 && Initial(c) > Ceiling(c))
  {
  }
}
