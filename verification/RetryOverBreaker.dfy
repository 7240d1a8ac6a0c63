/** A retry loop whose fn goes through a circuit breaker, the composition of the load simulation: one
    caller, a downstream that always fails. */
module RetryOverBreaker {
  import opened Wrappers
  import B = BreakerProtocol
  import opened Backoff
  import opened RetryLoop

  datatype CallError = Downstream | Rejected(why: B.Decision)

  /** The instants at which attempt k enters the breaker and leaves it. */
  datatype Timing = Timing(enter: nat -> int, leave: nat -> int)

  /** Attempt k finds the breaker in state c and is let through. */
  predicate LetThrough(cfg: B.Config, c: B.Circuit, t: Timing, k: nat) {
    B.Decide(cfg, B.CurrentState(cfg, c, t.enter(k))).Admitted?
  }

  /** The breaker after attempt k: ExecuteContext around a failing downstream. */
  function Attempt(cfg: B.Config, c: B.Circuit, t: Timing, k: nat): B.Circuit {
    var entered := B.Admit(cfg, c, t.enter(k));
    match B.Decide(cfg, B.CurrentState(cfg, c, t.enter(k)))
    case Admitted(probe) =>
      B.Complete(cfg, entered, probe, B.Judge(B.Returned(true, false), false), t.leave(k))
    case _ => entered
  }

  /** The breaker before attempt k. */
  function Before(cfg: B.Config, c: B.Circuit, t: Timing, k: nat): B.Circuit {
    if k == 0 then c else Attempt(cfg, Before(cfg, c, t, k - 1), t, k - 1)
  }

  /** What the retry loop gets from attempt k. */
  function ErrorAt(cfg: B.Config, c: B.Circuit, t: Timing, k: nat): Option<CallError> {
    var before := Before(cfg, c, t, k);
    if LetThrough(cfg, before, t, k) then Some(Downstream)
    else Some(Rejected(B.Decide(cfg, B.CurrentState(cfg, before, t.enter(k)))))
  }

  /** The fn that the retry loop calls. */
  function Wrapped(cfg: B.Config, c: B.Circuit, t: Timing): nat -> Option<CallError> {
    (k: nat) => ErrorAt(cfg, c, t, k)
  }

  /** How often the first n attempts reach the downstream. */
  function Reached(cfg: B.Config, c: B.Circuit, t: Timing, n: nat): nat {
    if n == 0 then 0
    else Reached(cfg, c, t, n - 1) + (if LetThrough(cfg, Before(cfg, c, t, n - 1), t, n - 1) then 1 else 0)
  }

  /** A Closed breaker lets the attempt through and counts its failure, or opens. */
  lemma FailsClosed(cfg: B.Config, c: B.Circuit, t: Timing, k: nat)
    requires c.phase.Closed?
    ensures LetThrough(cfg, c, t, k)
    ensures var after := Attempt(cfg, c, t, k);
            && after.lastFailure == Some(t.leave(k))
            && (if c.failureCount + 1 < cfg.failureThreshold
                then after.phase.Closed? && after.failureCount == c.failureCount + 1
                else after.phase.Open?)
  {
  }

  /** An open breaker within its timeout turns the attempt away and stays as it is. */
  lemma StaysOpen(cfg: B.Config, c: B.Circuit, t: Timing, k: nat, latest: int)
    requires c.phase.Open? && c.lastFailure == Some(latest) && t.enter(k) - latest < cfg.timeout
    ensures Attempt(cfg, c, t, k) == c && !LetThrough(cfg, c, t, k)
  {
  }

  /** The breaker during the call: it counts up to the threshold and then stays open. */
  lemma {:induction false} Course(cfg: B.Config, c: B.Circuit, t: Timing, trip: nat, k: nat)
    requires B.Sane(cfg) && c.phase.Closed? && trip == cfg.failureThreshold - c.failureCount > 0
    requires forall i: nat :: trip <= i < k ==> t.enter(i) - t.leave(trip - 1) < cfg.timeout
    ensures var before := Before(cfg, c, t, k);
            && Reached(cfg, c, t, k) == Min(k, trip)
            && (if k < trip then before.phase.Closed? && before.failureCount == c.failureCount + k
                else before.phase.Open? && before.lastFailure == Some(t.leave(trip - 1)))
  {
    if k > 0 {
      Course(cfg, c, t, trip, k - 1);
      var before := Before(cfg, c, t, k - 1);
      if k - 1 < trip {
        FailsClosed(cfg, before, t, k - 1);
      } else {
        StaysOpen(cfg, before, t, k - 1, t.leave(trip - 1));
      }
    }
  }

  lemma ErrorCourse(cfg: B.Config, c: B.Circuit, t: Timing, trip: nat, k: nat)
    requires B.Sane(cfg) && c.phase.Closed? && trip == cfg.failureThreshold - c.failureCount > 0
    requires forall i: nat :: trip <= i <= k ==> t.enter(i) - t.leave(trip - 1) < cfg.timeout
    ensures ErrorAt(cfg, c, t, k) == Some(if k >= trip then Rejected(B.CircuitOpen) else Downstream)
  {
    Course(cfg, c, t, trip, k);
  }

  /** Retry over a breaker. Starting from a Closed breaker that is `trip` failures away from opening,
      with all errors retryable, no cancellation, and every attempt after the trip made within the
      breaker's timeout, a retry loop reaches the failing downstream exactly min(MaxAttempts, trip)
      times. Its joined error ends in ErrCircuitOpen when it had attempts left after the trip, and in
      the downstream's error otherwise. For a fresh breaker `trip` is FailureThreshold. */
  lemma RetriesStopAtTheBreaker(cfg: B.Config, c: B.Circuit, t: Timing, retry: Config, s: Script, trip: nat)
    requires B.Sane(cfg) && c.phase.Closed? && trip == cfg.failureThreshold - c.failureCount > 0
    requires retry.maxAttempts >= 1 && s.cancelAt.None? && forall k: nat :: s.retryable(k)
    requires forall k: nat :: trip <= k < retry.maxAttempts ==> t.enter(k) - t.leave(trip - 1) < cfg.timeout
    ensures var r := DoFrom(retry, s, Wrapped(cfg, c, t), 0, None);
            && |Calls(r.events)| == retry.maxAttempts
            && Reached(cfg, c, t, retry.maxAttempts) == Min(retry.maxAttempts, trip)
            && r.err == Some(Exhausted(Some(
                 if retry.maxAttempts > trip then Rejected(B.CircuitOpen) else Downstream)))
  {
    var n: nat := retry.maxAttempts;
    var fn := Wrapped(cfg, c, t);
    AlwaysFailing(retry, s, fn);
    RoundsCalls(retry, s, 0, n);
    Course(cfg, c, t, trip, n);
    ErrorCourse(cfg, c, t, trip, n - 1);
  }

  /** A loop whose fn never succeeds and is never told to stop uses up its attempts. */
  lemma AlwaysFailing<E>(cfg: Config, s: Script, fn: nat -> Option<E>)
    requires cfg.maxAttempts >= 1 && s.cancelAt.None? && forall k: nat :: s.retryable(k)
    requires forall k: nat :: fn(k).Some?
    ensures DoFrom(cfg, s, fn, 0, None) ==
            Result(None, Some(Exhausted(fn(cfg.maxAttempts - 1))), Rounds(cfg, s, 0, cfg.maxAttempts))
  {
    UncancelledSearch(cfg, s, fn, 0, cfg.maxAttempts, None);
  }

  lemma {:induction false} RoundsCalls(cfg: Config, s: Script, k: nat, n: nat)
    requires k <= n
    ensures |Calls(Rounds(cfg, s, k, n))| == n - k
    decreases n - k
  {
    if k < n {
      RoundsCalls(cfg, s, k + 1, n);
      RoundThen(cfg, s, k, Rounds(cfg, s, k + 1, n));
    }
  }
}
