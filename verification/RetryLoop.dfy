/** The two retry loops, `doWithConfig` and `doWithValueWithConfig`, driven by a scripted environment:
    outcomes of fn, verdicts of RetryIf, the instant of cancellation and the choices of select. */
module RetryLoop {
  import opened Wrappers
  import opened Float64
  import opened Backoff

  /** Everything around a retry loop except fn. Attempt k has three instants in the order
      3k (ctx.Err() at the top), 3k + 1 (fn is called) and 3k + 2 (select); the context is cancelled
      from the instant `cancelAt` on. `preferDone(k)` is the choice of the select of attempt k when
      the context is done and the timer may have fired too. */
  datatype Script = Script(
    retryable: nat -> bool,
    cancelAt: Option<nat>,
    cause: Error,
    preferDone: nat -> bool,
    draws: nat -> Option<nat>,
    garbage: int)
  {
    predicate Cancelled(instant: nat) {
      cancelAt.Some? && cancelAt.value <= instant
    }
  }

  /** What a loop does that its surroundings can see. */
  datatype Event =
    | Call(attempt: nat)
    | Wait(delay: int, interrupted: bool)

  /** `ctx.Err()`, the error of fn, or `errors.Join(ErrMaxAttemptsReached, lastErr)`. */
  datatype RetryError<+E> =
    | Context(cause: Error)
    | App(err: E)
    | Exhausted(last: Option<E>)

  datatype Outcome<+T, +E> = Value(value: T) | Err(err: E)

  /** The result of a loop: its error (None is nil), its value and what it did. */
  datatype Result<+T, +E> = Result(value: Option<T>, err: Option<RetryError<E>>, events: seq<Event>)

  // ---------------------------------------------------------------------------------------------
  // The two loops as functions
  // ---------------------------------------------------------------------------------------------

  function DelayAt(cfg: Config, s: Script, k: nat): int {
    Delay(cfg, k, s.garbage, s.draws(k))
  }

  /** doWithConfig from the top of attempt k on. */
  function DoFrom<E>(cfg: Config, s: Script, fn: nat -> Option<E>, k: nat, last: Option<E>): Result<(), E>
    decreases cfg.maxAttempts - k
  {
    if k >= cfg.maxAttempts then Result(None, Some(Exhausted(last)), [])
    else if s.Cancelled(3 * k) then Result(None, Some(Context(s.cause)), [])
    else if fn(k).None? then Result(None, None, [Call(k)])
    else if !s.retryable(k) then Result(None, Some(App(fn(k).value)), [Call(k)])
    else if k == cfg.maxAttempts - 1 then Prepend([Call(k)], DoFrom(cfg, s, fn, k + 1, fn(k)))
    else if s.Cancelled(3 * k + 2) && s.preferDone(k) then
      Result(None, Some(Context(s.cause)), [Call(k), Wait(DelayAt(cfg, s, k), true)])
    else Prepend([Call(k), Wait(DelayAt(cfg, s, k), false)], DoFrom(cfg, s, fn, k + 1, fn(k)))
  }

  function Prepend<T, E>(events: seq<Event>, r: Result<T, E>): Result<T, E> {
    r.(events := events + r.events)
  }

  /** doWithValueWithConfig from the top of attempt k on. */
  function DoValueFrom<T, E>(cfg: Config, s: Script, fn: nat -> Outcome<T, E>, k: nat, last: Option<E>): Result<T, E>
    decreases cfg.maxAttempts - k
  {
    if k >= cfg.maxAttempts then Result(None, Some(Exhausted(last)), [])
    else if s.Cancelled(3 * k) then Result(None, Some(Context(s.cause)), [])
    else match fn(k)
      case Value(v) => Result(Some(v), None, [Call(k)])
      case Err(e) =>
        if !s.retryable(k) then Result(None, Some(App(e)), [Call(k)])
        else if k == cfg.maxAttempts - 1 then Prepend([Call(k)], DoValueFrom(cfg, s, fn, k + 1, Some(e)))
        else if s.Cancelled(3 * k + 2) && s.preferDone(k) then
          Result(None, Some(Context(s.cause)), [Call(k), Wait(DelayAt(cfg, s, k), true)])
        else Prepend([Call(k), Wait(DelayAt(cfg, s, k), false)], DoValueFrom(cfg, s, fn, k + 1, Some(e)))
  }

  /** What attempt k contributes when the loop goes on. */
  function Round(cfg: Config, s: Script, k: nat): seq<Event> {
    if k == cfg.maxAttempts - 1 then [Call(k)] else [Call(k), Wait(DelayAt(cfg, s, k), false)]
  }

  /** The error of a value-returning fn alone. */
  function EraseOutcome<T, E>(o: Outcome<T, E>): Option<E> {
    if o.Value? then None else Some(o.err)
  }

  function Erased<T, E>(fn: nat -> Outcome<T, E>): nat -> Option<E> {
    (k: nat) => EraseOutcome(fn(k))
  }

  lemma PrependTwice<T, E>(a: seq<Event>, b: seq<Event>, r: Result<T, E>)
    ensures Prepend(a, Prepend(b, r)) == Prepend(a + b, r)
  {
    assert a + (b + r.events) == a + b + r.events;
  }

  // ---------------------------------------------------------------------------------------------
  // The two loops as loops
  // ---------------------------------------------------------------------------------------------

  /** doWithConfig. */
  method DoWithConfig<E>(cfg: Config, s: Script, fn: nat -> Option<E>)
    returns (err: Option<RetryError<E>>, events: seq<Event>)
    ensures Result(None, err, events) == DoFrom(cfg, s, fn, 0, None)
  {
    var lastErr: Option<E> := None;
    var attempt := 0;
    events := [];
    while attempt < cfg.maxAttempts
      invariant 0 <= attempt
      invariant DoFrom(cfg, s, fn, 0, None) == Prepend(events, DoFrom(cfg, s, fn, attempt, lastErr))
    {
      ghost var before := events;
      ghost var rest := DoFrom(cfg, s, fn, attempt + 1, fn(attempt));
      if s.Cancelled(3 * attempt) {
        return Some(Context(s.cause)), events;
      }
      events := events + [Call(attempt)];
      lastErr := fn(attempt);
      if lastErr.None? {
        return None, events;
      }
      if !s.retryable(attempt) {
        return Some(App(lastErr.value)), events;
      }
      if attempt < cfg.maxAttempts - 1 {
        var delay := Delay(cfg, attempt, s.garbage, s.draws(attempt));
        if s.Cancelled(3 * attempt + 2) && s.preferDone(attempt) {
          events := events + [Wait(delay, true)];
          assert events == before + [Call(attempt), Wait(delay, true)];
          return Some(Context(s.cause)), events;
        }
        events := events + [Wait(delay, false)];
      }
      assert events == before + Round(cfg, s, attempt);
      PrependTwice(before, Round(cfg, s, attempt), rest);
      attempt := attempt + 1;
    }
    return Some(Exhausted(lastErr)), events;
  }

  /** doWithValueWithConfig. */
  method DoWithValueWithConfig<T, E>(cfg: Config, s: Script, fn: nat -> Outcome<T, E>)
    returns (value: Option<T>, err: Option<RetryError<E>>, events: seq<Event>)
    ensures Result(value, err, events) == DoValueFrom(cfg, s, fn, 0, None)
  {
    var lastErr: Option<E> := None;
    var attempt := 0;
    events := [];
    while attempt < cfg.maxAttempts
      invariant 0 <= attempt
      invariant DoValueFrom(cfg, s, fn, 0, None) == Prepend(events, DoValueFrom(cfg, s, fn, attempt, lastErr))
    {
      ghost var before := events;
      ghost var rest := DoValueFrom(cfg, s, fn, attempt + 1, EraseOutcome(fn(attempt)));
      if s.Cancelled(3 * attempt) {
        return None, Some(Context(s.cause)), events;
      }
      events := events + [Call(attempt)];
      var outcome := fn(attempt);
      if outcome.Value? {
        return Some(outcome.value), None, events;
      }
      lastErr := Some(outcome.err);
      if !s.retryable(attempt) {
        return None, Some(App(outcome.err)), events;
      }
      if attempt < cfg.maxAttempts - 1 {
        var delay := Delay(cfg, attempt, s.garbage, s.draws(attempt));
        if s.Cancelled(3 * attempt + 2) && s.preferDone(attempt) {
          events := events + [Wait(delay, true)];
          assert events == before + [Call(attempt), Wait(delay, true)];
          return None, Some(Context(s.cause)), events;
        }
        events := events + [Wait(delay, false)];
      }
      assert events == before + Round(cfg, s, attempt);
      PrependTwice(before, Round(cfg, s, attempt), rest);
      attempt := attempt + 1;
    }
    return None, Some(Exhausted(lastErr)), events;
  }

  // ---------------------------------------------------------------------------------------------
  // The loops simulate each other
  // ---------------------------------------------------------------------------------------------

  function Erase<T, E>(r: Result<T, E>): Result<(), E> {
    Result(None, r.err, r.events)
  }

  /** With the value erased DoWithValue makes the same calls, waits the same delays and returns the
      same error as Do; it returns a value exactly when it returns no error. */
  lemma {:induction false} LoopsSimulate<T, E>(cfg: Config, s: Script, fn: nat -> Outcome<T, E>, k: nat, last: Option<E>)
    ensures Erase(DoValueFrom(cfg, s, fn, k, last)) == DoFrom(cfg, s, Erased(fn), k, last)
    ensures DoValueFrom(cfg, s, fn, k, last).value.Some? <==> DoValueFrom(cfg, s, fn, k, last).err.None?
    decreases cfg.maxAttempts - k
  {
    if k < cfg.maxAttempts && fn(k).Err? {
      LoopsSimulate(cfg, s, fn, k + 1, Some(fn(k).err));
    }
  }

  // ---------------------------------------------------------------------------------------------
  // What every run of the loop keeps
  // ---------------------------------------------------------------------------------------------

  /** The attempts in which fn was called. */
  function Calls(events: seq<Event>): seq<nat> {
    if events == [] then []
    else (if events[0].Call? then [events[0].attempt] else []) + Calls(events[1..])
  }

  /** How long a timer runs; one with a negative delay fires at once. */
  function Slept(delay: int): (r: nat)
    ensures r >= delay && (r > 0 ==> r == delay)
  {
    if delay < 0 then 0 else delay
  }

  /** The sleep that the loop asks for. */
  function Waited(events: seq<Event>): nat {
    if events == [] then 0
    else (if events[0].Wait? then Slept(events[0].delay) else 0) + Waited(events[1..])
  }

  lemma CallWaitThen(k: nat, d: int, interrupted: bool, rest: seq<Event>)
    ensures Calls([Call(k)] + rest) == [k] + Calls(rest) && Waited([Call(k)] + rest) == Waited(rest)
    ensures Calls([Call(k), Wait(d, interrupted)] + rest) == [k] + Calls(rest)
    ensures Waited([Call(k), Wait(d, interrupted)] + rest) == Slept(d) + Waited(rest)
  {
    assert ([Call(k)] + rest)[1..] == rest;
    var both := [Call(k), Wait(d, interrupted)] + rest;
    assert both[1..] == [Wait(d, interrupted)] + rest;
    assert both[1..][1..] == rest;
    assert Calls(both[1..]) == [] + Calls(rest) == Calls(rest);
  }

  /** What one round adds to the calls and to the sleep, whether the loop goes on or not. */
  lemma RoundThen(cfg: Config, s: Script, k: nat, rest: seq<Event>)
    ensures Calls(Round(cfg, s, k) + rest) == [k] + Calls(rest)
    ensures Waited(Round(cfg, s, k) + rest) ==
            (if k == cfg.maxAttempts - 1 then 0 else Slept(DelayAt(cfg, s, k))) + Waited(rest)
    ensures Calls([Call(k)]) == [k] && Waited([Call(k)]) == 0
    ensures Calls([Call(k), Wait(DelayAt(cfg, s, k), true)]) == [k]
    ensures Waited([Call(k), Wait(DelayAt(cfg, s, k), true)]) == Slept(DelayAt(cfg, s, k))
  {
    CallWaitThen(k, DelayAt(cfg, s, k), false, rest);
    CallWaitThen(k, DelayAt(cfg, s, k), true, []);
    assert [Call(k)] + [] == [Call(k)];
    assert [Call(k), Wait(DelayAt(cfg, s, k), true)] + [] == [Call(k), Wait(DelayAt(cfg, s, k), true)];
  }

  /** The loop either ends in attempt k or goes on after a full round. */
  lemma Unfold<E>(cfg: Config, s: Script, fn: nat -> Option<E>, k: nat, last: Option<E>)
    requires k < cfg.maxAttempts
    ensures var r := DoFrom(cfg, s, fn, k, last);
            || (r.events == [] && s.Cancelled(3 * k) && r.err == Some(Context(s.cause)))
            || (!s.Cancelled(3 * k) && r.events == [Call(k)] && (r.err.None? || r.err.value.App?))
            || (!s.Cancelled(3 * k) && r.events == [Call(k), Wait(DelayAt(cfg, s, k), true)] && k < cfg.maxAttempts - 1 &&
                s.Cancelled(3 * k + 2) && r.err == Some(Context(s.cause)))
            || (!s.Cancelled(3 * k) && r == Prepend(Round(cfg, s, k), DoFrom(cfg, s, fn, k + 1, fn(k))))
  {
  }

  /** The calls of a loop entered at attempt k are those of consecutive attempts, at most MaxAttempts
      in all; no attempt is started in a context seen cancelled, and every call but the last begins
      before the cancellation. */
  ghost predicate Disciplined(cfg: Config, s: Script, k: nat, calls: seq<nat>) {
    && (forall i :: 0 <= i < |calls| ==> calls[i] == k + i)
    && (k <= cfg.maxAttempts ==> k + |calls| <= cfg.maxAttempts)
    && (forall i :: 0 <= i < |calls| ==> !s.Cancelled(3 * calls[i]))
    && (forall i :: 0 <= i < |calls| - 1 ==> !s.Cancelled(3 * calls[i] + 1))
  }

  /** fn is called for consecutive attempts, at most MaxAttempts times; no call but the last one begins
      after the cancellation, so at most one does. */
  lemma {:induction false} CallDiscipline<E>(cfg: Config, s: Script, fn: nat -> Option<E>, k: nat, last: Option<E>)
    ensures Disciplined(cfg, s, k, Calls(DoFrom(cfg, s, fn, k, last).events))
    decreases cfg.maxAttempts - k
  {
    if k < cfg.maxAttempts {
      var rest := DoFrom(cfg, s, fn, k + 1, fn(k));
      Unfold(cfg, s, fn, k, last);
      RoundThen(cfg, s, k, rest.events);
      CallDiscipline(cfg, s, fn, k + 1, fn(k));
      NotYetCancelled(cfg, s, fn, k + 1, fn(k));
      if !s.Cancelled(3 * k) {
        OneMore(cfg, s, k, Calls(rest.events));
      }
    }
  }

  lemma OneMore(cfg: Config, s: Script, k: nat, calls: seq<nat>)
    requires k < cfg.maxAttempts && Disciplined(cfg, s, k + 1, calls)
    requires calls != [] ==> !s.Cancelled(3 * k + 1)
    requires !s.Cancelled(3 * k)
    ensures Disciplined(cfg, s, k, [k] + calls) && Disciplined(cfg, s, k, [k]) && Disciplined(cfg, s, k, [])
  {
    var all := [k] + calls;
    forall i | 0 <= i < |all| ensures !s.Cancelled(3 * all[i]) && (i < |all| - 1 ==> !s.Cancelled(3 * all[i] + 1)) {
      if i > 0 { assert all[i] == calls[i - 1]; }
    }
  }

  /** Nothing but a cancellation makes the loop return the context's error, and it returns the one of
      the context. */
  lemma {:induction false} ContextErrorMeansCancelled<E>(cfg: Config, s: Script, fn: nat -> Option<E>, k: nat, last: Option<E>)
    ensures var r := DoFrom(cfg, s, fn, k, last);
            r.err.Some? && r.err.value.Context? ==>
              r.err.value.cause == s.cause && s.Cancelled(3 * (k + |Calls(r.events)|))
    decreases cfg.maxAttempts - k
  {
    if k < cfg.maxAttempts {
      var rest := DoFrom(cfg, s, fn, k + 1, fn(k));
      Unfold(cfg, s, fn, k, last);
      RoundThen(cfg, s, k, rest.events);
      ContextErrorMeansCancelled(cfg, s, fn, k + 1, fn(k));
    }
  }

  /** A loop that is entered after the cancellation calls nothing. */
  lemma NotYetCancelled<E>(cfg: Config, s: Script, fn: nat -> Option<E>, k: nat, last: Option<E>)
    ensures Calls(DoFrom(cfg, s, fn, k, last).events) != [] ==> forall i: nat :: i <= 3 * k ==> !s.Cancelled(i)
  {
  }

  /** The rounds before attempt n. */
  function Rounds(cfg: Config, s: Script, from: nat, n: nat): seq<Event>
    requires from <= n
    decreases n - from
  {
    if from == n then [] else Round(cfg, s, from) + Rounds(cfg, s, from + 1, n)
  }

  /** Attempt k ends the loop. */
  predicate Stops<E>(s: Script, fn: nat -> Option<E>, k: nat) {
    fn(k).None? || !s.retryable(k)
  }

  /** Without cancellation the loop is a search for the first attempt that succeeds or fails for good:
      it returns the outcome of that attempt, and the joined error when there is none among the
      MaxAttempts allowed. */
  lemma {:induction false} UncancelledSearch<E>(cfg: Config, s: Script, fn: nat -> Option<E>, k: nat, n: nat, last: Option<E>)
    requires s.cancelAt.None? && k <= n <= cfg.maxAttempts
    requires forall i :: k <= i < n ==> !Stops(s, fn, i)
    requires n < cfg.maxAttempts ==> Stops(s, fn, n)
    ensures DoFrom(cfg, s, fn, k, last) ==
            if n < cfg.maxAttempts then
              Result(None, if fn(n).None? then None else Some(App(fn(n).value)), Rounds(cfg, s, k, n) + [Call(n)])
            else
              Result(None, Some(Exhausted(if n == k then last else fn(n - 1))), Rounds(cfg, s, k, n))
    decreases n - k
  {
    if k < n {
      assert !Stops(s, fn, k);
      UncancelledSearch(cfg, s, fn, k + 1, n, fn(k));
      assert Round(cfg, s, k) + Rounds(cfg, s, k + 1, n) + [Call(n)] ==
             Round(cfg, s, k) + (Rounds(cfg, s, k + 1, n) + [Call(n)]);
    } else if n < cfg.maxAttempts {
      assert Rounds(cfg, s, k, n) + [Call(n)] == [Call(n)];
    }
  }

  /** Exponential backoff, jittered or not, never asks for more sleep than a cap per retry, */
  lemma {:induction false} SleepWithinCaps<E>(cfg: Config, s: Script, fn: nat -> Option<E>, k: nat, last: Option<E>)
    requires NonNegative(cfg) && cfg.strategy.Exponential?
    requires k < cfg.maxAttempts
    ensures Waited(DoFrom(cfg, s, fn, k, last).events) <= Caps(cfg, k)
    decreases cfg.maxAttempts - k
  {
    Unfold(cfg, s, fn, k, last);
    RoundThen(cfg, s, k, DoFrom(cfg, s, fn, k + 1, fn(k)).events);
    CapsStep(cfg, s, k);
    if k < cfg.maxAttempts - 1 {
      SleepWithinCaps(cfg, s, fn, k + 1, fn(k));
    }
  }

  /** A cap for every retry from attempt k on. */
  function Caps(cfg: Config, k: nat): int {
    (cfg.maxAttempts - 1 - k) * cfg.maxDelay
  }

  lemma CapsStep(cfg: Config, s: Script, k: nat)
    requires NonNegative(cfg) && cfg.strategy.Exponential?
    requires k < cfg.maxAttempts
    ensures Caps(cfg, k) >= 0
    ensures k < cfg.maxAttempts - 1 ==> Slept(DelayAt(cfg, s, k)) <= Caps(cfg, k) - Caps(cfg, k + 1)
  {
    MulMono(0, cfg.maxAttempts - 1 - k, cfg.maxDelay);
    if k < cfg.maxAttempts - 1 {
      DelayBounds(cfg, s, k);
      CapStep(cfg.maxAttempts - 1 - k, cfg.maxDelay);
    }
  }

  /** nor for more than the geometric sum of the doubled delays. */
  lemma {:induction false} SleepWithinDoubling<E>(cfg: Config, s: Script, fn: nat -> Option<E>, k: nat, last: Option<E>)
    requires NonNegative(cfg) && cfg.strategy.Exponential?
    requires k < cfg.maxAttempts
    ensures Waited(DoFrom(cfg, s, fn, k, last).events) <=
            Budget(cfg, k, cfg.maxAttempts - 1)
    decreases cfg.maxAttempts - k
  {
    var rest := DoFrom(cfg, s, fn, k + 1, fn(k));
    Unfold(cfg, s, fn, k, last);
    RoundThen(cfg, s, k, rest.events);
    BudgetStep(cfg, s, k);
    if k < cfg.maxAttempts - 1 {
      SleepWithinDoubling(cfg, s, fn, k + 1, fn(k));
    }
  }

  /** The delays that doubling allows from attempt k up to attempt m. */
  function Budget(cfg: Config, k: nat, m: nat): int
    requires 0 <= cfg.initialDelay
  {
    ToFloat(cfg.initialDelay) * (Pow2(m) - Pow2(k))
  }

  lemma BudgetStep(cfg: Config, s: Script, k: nat)
    requires NonNegative(cfg) && cfg.strategy.Exponential?
    requires k < cfg.maxAttempts
    ensures Budget(cfg, k, cfg.maxAttempts - 1) >= 0
    ensures k < cfg.maxAttempts - 1 ==>
              Slept(DelayAt(cfg, s, k)) <= Budget(cfg, k, cfg.maxAttempts - 1) - Budget(cfg, k + 1, cfg.maxAttempts - 1)
  {
    GeometricStep(ToFloat(cfg.initialDelay), k, cfg.maxAttempts - 1);
    DelayBounds(cfg, s, k);
  }

  /** Neither jitter nor an overflowing conversion makes a delay longer than the ideal one. */
  lemma DelayBounds(cfg: Config, s: Script, k: nat)
    requires NonNegative(cfg) && cfg.strategy.Exponential?
    ensures Slept(DelayAt(cfg, s, k)) <= cfg.maxDelay
    ensures Slept(DelayAt(cfg, s, k)) <= ToFloat(cfg.initialDelay) * Pow2(k)
  {
    DelayWithinIdeal(cfg, k, s.garbage, s.draws(k));
    var capped: nat := Min(k, 62);
    Pow2Monotone(capped, k);
    ScaledMonotone(ToFloat(cfg.initialDelay), Pow2(capped), Pow2(k));
  }

  lemma CapStep(n: nat, cap: nat)
    requires n >= 1
    ensures n * cap == (n - 1) * cap + cap >= cap
  {
    MulMono(0, n - 1, cap);
  }

  lemma GeometricStep(f: nat, k: nat, m: nat)
    requires k <= m
    ensures f * (Pow2(m) - Pow2(k)) >= 0
    ensures k < m ==> f * (Pow2(m) - Pow2(k)) == f * (Pow2(m) - Pow2(k + 1)) + f * Pow2(k)
    ensures k < m ==> f * (Pow2(m) - Pow2(k)) >= f * Pow2(k)
  {
    Pow2Monotone(k, m);
    MulMono(0, Pow2(m) - Pow2(k), f);
    if k < m {
      Pow2Monotone(k + 1, m);
      MulMono(0, Pow2(m) - Pow2(k + 1), f);
      Distribute(f, Pow2(m) - Pow2(k + 1), Pow2(k));
    }
  }

  lemma Distribute(f: nat, a: nat, b: nat)
    ensures f * (a + b) == f * a + f * b
  {
  }

  /** The bound of the whole call, in closed form. */
  lemma TotalSleepOfDo<E>(cfg: Config, s: Script, fn: nat -> Option<E>)
    requires NonNegative(cfg) && cfg.strategy.Exponential? && cfg.maxAttempts >= 1
    ensures Waited(DoFrom(cfg, s, fn, 0, None).events) <=
            Min((cfg.maxAttempts - 1) * cfg.maxDelay, ToFloat(cfg.initialDelay) * (Pow2(cfg.maxAttempts - 1) - 1))
  {
    SleepWithinCaps(cfg, s, fn, 0, None);
    SleepWithinDoubling(cfg, s, fn, 0, None);
  }

  // ---------------------------------------------------------------------------------------------
  // Options
  // ---------------------------------------------------------------------------------------------

  /** A functional option; None is a nil option, which is skipped. */
  datatype Setting =
    | WithMaxAttempts(n: int)
    | WithInitialDelay(initial: int)
    | WithMaxDelay(max: int)
    | WithStrategy(strategy: Strategy)
    | WithJitter(enabled: bool)

  const DefaultConfig := Config(3, 100_000_000, 10_000_000_000, Exponential, true)

  function Apply(o: Option<Setting>, cfg: Config): Config {
    if o.None? then cfg
    else match o.value
      case WithMaxAttempts(n) => if n > 0 then cfg.(maxAttempts := n) else cfg
      case WithInitialDelay(d) => cfg.(initialDelay := d)
      case WithMaxDelay(d) => cfg.(maxDelay := d)
      case WithStrategy(st) => cfg.(strategy := st)
      case WithJitter(b) => cfg.(jitter := b)
  }

  function ApplyAll(opts: seq<Option<Setting>>): Config {
    if opts == [] then DefaultConfig else Apply(opts[|opts| - 1], ApplyAll(opts[..|opts| - 1]))
  }

  /** The loop of Do and DoWithValue over their options. */
  method Configure(opts: seq<Option<Setting>>) returns (cfg: Config)
    ensures cfg == ApplyAll(opts)
  {
    cfg := DefaultConfig;
    for i := 0 to |opts|
      invariant cfg == ApplyAll(opts[..i])
    {
      assert opts[..i + 1][..i] == opts[..i];
      cfg := Apply(opts[i], cfg);
    }
    assert opts[..|opts|] == opts;
  }

  /** A setting that changes something; non-positive attempt counts are ignored. */
  predicate Effective(o: Option<Setting>) {
    o.Some? && (o.value.WithMaxAttempts? ==> o.value.n > 0)
  }

  predicate SameField(a: Setting, b: Setting) {
    match a
    case WithMaxAttempts(_) => b.WithMaxAttempts?
    case WithInitialDelay(_) => b.WithInitialDelay?
    case WithMaxDelay(_) => b.WithMaxDelay?
    case WithStrategy(_) => b.WithStrategy?
    case WithJitter(_) => b.WithJitter?
  }

  predicate InForce(a: Setting, cfg: Config) {
    match a
    case WithMaxAttempts(n) => cfg.maxAttempts == n
    case WithInitialDelay(d) => cfg.initialDelay == d
    case WithMaxDelay(d) => cfg.maxDelay == d
    case WithStrategy(st) => cfg.strategy == st
    case WithJitter(b) => cfg.jitter == b
  }

  /** The last effective option for a field is the one in force, whatever surrounds it. */
  lemma {:induction false} LastSettingWins(opts: seq<Option<Setting>>, i: nat)
    requires i < |opts| && Effective(opts[i])
    requires forall j :: i < j < |opts| && Effective(opts[j]) ==> !SameField(opts[i].value, opts[j].value)
    ensures InForce(opts[i].value, ApplyAll(opts))
  {
    if i < |opts| - 1 {
      LastSettingWins(opts[..|opts| - 1], i);
    }
  }

  /** Whatever the options, MaxAttempts stays positive: a call of Do on a live context calls fn, and
      the joined error always carries an error of fn. */
  lemma {:induction false} AtLeastOneAttempt(opts: seq<Option<Setting>>)
    ensures ApplyAll(opts).maxAttempts >= 1
  {
    if opts != [] {
      AtLeastOneAttempt(opts[..|opts| - 1]);
    }
  }

  lemma ExhaustedCarriesAnError<E>(opts: seq<Option<Setting>>, s: Script, fn: nat -> Option<E>)
    ensures var r := DoFrom(ApplyAll(opts), s, fn, 0, None);
            && (!s.Cancelled(0) ==> |Calls(r.events)| >= 1)
            && (r.err.Some? && r.err.value.Exhausted? ==>
                  r.err.value.last.Some? && r.err.value.last == fn(ApplyAll(opts).maxAttempts - 1))
  {
    var cfg := ApplyAll(opts);
    AtLeastOneAttempt(opts);
    Unfold(cfg, s, fn, 0, None);
    RoundThen(cfg, s, 0, DoFrom(cfg, s, fn, 1, fn(0)).events);
    ExhaustedLast(cfg, s, fn, 0, None);
  }

  lemma {:induction false} ExhaustedLast<E>(cfg: Config, s: Script, fn: nat -> Option<E>, k: nat, last: Option<E>)
    requires k < cfg.maxAttempts
    ensures var r := DoFrom(cfg, s, fn, k, last);
            r.err.Some? && r.err.value.Exhausted? ==> r.err.value.last.Some? && r.err.value.last == fn(cfg.maxAttempts - 1)
    decreases cfg.maxAttempts - k
  {
    if k < cfg.maxAttempts - 1 {
      ExhaustedLast(cfg, s, fn, k + 1, fn(k));
    }
  }

  /** A field that no effective option sets keeps its default: three attempts, a delay doubling from 100
      milliseconds to at most 10 seconds, full jitter. */
  lemma {:induction false} DefaultStays(opts: seq<Option<Setting>>)
    ensures (forall o :: o in opts && Effective(o) ==> !o.value.WithMaxAttempts?) ==> ApplyAll(opts).maxAttempts == 3
    ensures (forall o :: o in opts && Effective(o) ==> !o.value.WithInitialDelay?) ==>
              ApplyAll(opts).initialDelay == 100_000_000
    ensures (forall o :: o in opts && Effective(o) ==> !o.value.WithMaxDelay?) ==>
              ApplyAll(opts).maxDelay == 10_000_000_000
    ensures (forall o :: o in opts && Effective(o) ==> !o.value.WithStrategy?) ==> ApplyAll(opts).strategy == Exponential
    ensures (forall o :: o in opts && Effective(o) ==> !o.value.WithJitter?) ==> ApplyAll(opts).jitter
  {
    if opts != [] {
      DefaultStays(opts[..|opts| - 1]);
      assert opts[|opts| - 1] in opts;
    }
  }
}
