/** The whole behaviour of a retry loop, for every script: what it does, in which order, and the error
    it returns. */
module RetryTrace {
  import opened Wrappers
  import opened Backoff
  import opened RetryLoop

  /** The context wins the wait after attempt k. */
  predicate WaitCut(s: Script, k: nat) {
    s.Cancelled(3 * k + 2) && s.preferDone(k)
  }

  /** The i-th thing the loop does: calls and waits alternate, the wait after an attempt has that attempt's
      delay and is interrupted exactly when the context is done and select takes it. */
  function Deed(cfg: Config, s: Script, k: nat, i: nat): Event {
    if i % 2 == 0 then Call(k + i / 2) else Wait(DelayAt(cfg, s, k + i / 2), WaitCut(s, k + i / 2))
  }

  /** The wait after an attempt is as long as calculateDelay says for that attempt and its draw. */
  lemma WaitIsCalculated(cfg: Config, s: Script, k: nat, i: nat)
    ensures Deed(cfg, s, k, 2 * i) == Call(k + i)
    ensures Deed(cfg, s, k, 2 * i + 1) == Wait(Delay(cfg, k + i, s.garbage, s.draws(k + i)), WaitCut(s, k + i))
  {
  }

  lemma NextRound(cfg: Config, s: Script, k: nat, i: nat)
    requires i >= 2
    ensures Deed(cfg, s, k, i) == Deed(cfg, s, k + 1, i - 2)
  {
  }

  /** The loop, entered at attempt k, makes m calls of fn and returns r. */
  ghost predicate Traced<E>(cfg: Config, s: Script, fn: nat -> Option<E>, k: nat, m: nat, r: Result<(), E>) {
    && k + m <= cfg.maxAttempts
    // it goes on exactly as long as nothing stops it
    && (forall i: nat :: k <= i < k + m ==> !s.Cancelled(3 * i))
    && (forall i: nat :: k <= i < k + m - 1 ==> !Stops(s, fn, i) && !WaitCut(s, i))
    // its deeds, in order; the last attempt is followed by a wait unless it decides the result
    && |r.events| == 2 * m - (if m > 0 && (Stops(s, fn, k + m - 1) || k + m == cfg.maxAttempts) then 1 else 0)
    && (forall i: nat :: i < |r.events| ==> r.events[i] == Deed(cfg, s, k, i))
    // and its error
    && (if m > 0 && Stops(s, fn, k + m - 1) then
          r.err == if fn(k + m - 1).None? then None else Some(App(fn(k + m - 1).value))
        else if k + m == cfg.maxAttempts then
          m > 0 ==> r.err == Some(Exhausted(fn(k + m - 1)))
        else
          r.err == Some(Context(s.cause)) && (s.Cancelled(3 * (k + m)) || (m > 0 && WaitCut(s, k + m - 1))))
  }

  /** What a loop that has done one round and then m calls has done. */
  lemma RoundFirst<E>(cfg: Config, s: Script, fn: nat -> Option<E>, k: nat, m: nat, rest: Result<(), E>, r: Result<(), E>)
    requires k < cfg.maxAttempts && !s.Cancelled(3 * k) && !Stops(s, fn, k)
    requires k < cfg.maxAttempts - 1 ==> !WaitCut(s, k)
    requires r == Prepend(Round(cfg, s, k), rest) && Traced(cfg, s, fn, k + 1, m, rest)
    requires k + 1 == cfg.maxAttempts ==> rest.err == Some(Exhausted(fn(k)))
    ensures Traced(cfg, s, fn, k, m + 1, r)
  {
    DeedsAfterRound(cfg, s, k, rest.events);
  }

  lemma DeedsAfterRound(cfg: Config, s: Script, k: nat, rest: seq<Event>)
    requires k < cfg.maxAttempts && (k < cfg.maxAttempts - 1 ==> !WaitCut(s, k))
    requires k == cfg.maxAttempts - 1 ==> rest == []
    requires forall i: nat :: i < |rest| ==> rest[i] == Deed(cfg, s, k + 1, i)
    ensures var events := Round(cfg, s, k) + rest;
            forall i: nat :: i < |events| ==> events[i] == Deed(cfg, s, k, i)
  {
    var events := Round(cfg, s, k) + rest;
    forall i: nat | i < |events| ensures events[i] == Deed(cfg, s, k, i) {
      if i >= |Round(cfg, s, k)| {
        assert rest[i - 2] == Deed(cfg, s, k + 1, i - 2);
        NextRound(cfg, s, k, i);
      }
    }
  }

  /** A loop that ends at the top of attempt k, after its call, or in its wait. */
  lemma EndsHere<E>(cfg: Config, s: Script, fn: nat -> Option<E>, k: nat, last: Option<E>)
    requires k < cfg.maxAttempts
    ensures var r := DoFrom(cfg, s, fn, k, last);
            if s.Cancelled(3 * k) then r == Result(None, Some(Context(s.cause)), [])
            else if fn(k).None? then r == Result(None, None, [Call(k)])
            else if !s.retryable(k) then r == Result(None, Some(App(fn(k).value)), [Call(k)])
            else k < cfg.maxAttempts - 1 && WaitCut(s, k) ==>
              r == Result(None, Some(Context(s.cause)), [Call(k), Wait(DelayAt(cfg, s, k), true)])
  {
  }

  /** Such an end is as described. */
  lemma ShortTrace<E>(cfg: Config, s: Script, fn: nat -> Option<E>, k: nat, r: Result<(), E>)
    requires k < cfg.maxAttempts
    ensures s.Cancelled(3 * k) && r == Result(None, Some(Context(s.cause)), []) ==> Traced(cfg, s, fn, k, 0, r)
    ensures !s.Cancelled(3 * k) && fn(k).None? && r == Result(None, None, [Call(k)]) ==> Traced(cfg, s, fn, k, 1, r)
    ensures !s.Cancelled(3 * k) && fn(k).Some? && !s.retryable(k) && r == Result(None, Some(App(fn(k).value)), [Call(k)]) ==>
              Traced(cfg, s, fn, k, 1, r)
    ensures !s.Cancelled(3 * k) && !Stops(s, fn, k) && k < cfg.maxAttempts - 1 && WaitCut(s, k) &&
            r == Result(None, Some(Context(s.cause)), [Call(k), Wait(DelayAt(cfg, s, k), true)]) ==>
              Traced(cfg, s, fn, k, 1, r)
  {
  }

  /** A loop that goes on after attempt k. */
  lemma GoesOn<E>(cfg: Config, s: Script, fn: nat -> Option<E>, k: nat, last: Option<E>)
    requires k < cfg.maxAttempts && !s.Cancelled(3 * k) && !Stops(s, fn, k)
    requires k < cfg.maxAttempts - 1 ==> !WaitCut(s, k)
    ensures DoFrom(cfg, s, fn, k, last) == Prepend(Round(cfg, s, k), DoFrom(cfg, s, fn, k + 1, fn(k)))
    ensures k + 1 == cfg.maxAttempts ==>
              var rest := DoFrom(cfg, s, fn, k + 1, fn(k));
              rest.err == Some(Exhausted(fn(k))) && Traced(cfg, s, fn, k + 1, 0, rest)
  {
  }

  /** The whole behaviour, for every script and from every attempt on. */
  lemma {:induction false} Trace<E>(cfg: Config, s: Script, fn: nat -> Option<E>, k: nat, last: Option<E>) returns (m: nat)
    requires k < cfg.maxAttempts
    ensures Traced(cfg, s, fn, k, m, DoFrom(cfg, s, fn, k, last))
    decreases cfg.maxAttempts - k
  {
    EndsHere(cfg, s, fn, k, last);
    ShortTrace(cfg, s, fn, k, DoFrom(cfg, s, fn, k, last));
    if s.Cancelled(3 * k) {
      m := 0;
    } else if Stops(s, fn, k) || (k < cfg.maxAttempts - 1 && WaitCut(s, k)) {
      m := 1;
    } else {
      var rest := DoFrom(cfg, s, fn, k + 1, fn(k));
      var n := 0;
      if k + 1 < cfg.maxAttempts {
        n := Trace(cfg, s, fn, k + 1, fn(k));
      }
      GoesOn(cfg, s, fn, k, last);
      RoundFirst(cfg, s, fn, k, n, rest, DoFrom(cfg, s, fn, k, last));
      m := n + 1;
    }
  }

  /** Do, from its first attempt. A loop without attempts calls nothing and has no error to carry. */
  lemma DoBehaviour<E>(cfg: Config, s: Script, fn: nat -> Option<E>) returns (m: nat)
    ensures cfg.maxAttempts >= 1 ==> Traced(cfg, s, fn, 0, m, DoFrom(cfg, s, fn, 0, None))
    ensures cfg.maxAttempts < 1 ==> DoFrom(cfg, s, fn, 0, None) == Result(None, Some(Exhausted(None)), [])
  {
    m := 0;
    if cfg.maxAttempts >= 1 {
      m := Trace(cfg, s, fn, 0, None);
    }
  }

  /** A value comes from the call that the loop made last. */
  lemma {:induction false} ValueOfLastCall<T, E>(cfg: Config, s: Script, fn: nat -> Outcome<T, E>, k: nat, last: Option<E>)
    ensures var r := DoValueFrom(cfg, s, fn, k, last);
            r.value.Some? ==>
              && r.events != [] && r.events[|r.events| - 1].Call?
              && fn(r.events[|r.events| - 1].attempt) == Value(r.value.value)
    decreases cfg.maxAttempts - k
  {
    if k < cfg.maxAttempts && fn(k).Err? {
      ValueOfLastCall(cfg, s, fn, k + 1, Some(fn(k).err));
    }
  }

  /** DoWithValue does the same with the errors of its fn, and returns the value of its last call if that
      call succeeded and the zero value otherwise. */
  lemma DoValueBehaviour<T, E>(cfg: Config, s: Script, fn: nat -> Outcome<T, E>) returns (m: nat)
    requires cfg.maxAttempts >= 1
    ensures var r := DoValueFrom(cfg, s, fn, 0, None);
            && Traced(cfg, s, Erased(fn), 0, m, Erase(r))
            && r.value == if m > 0 && fn(m - 1).Value? then Some(fn(m - 1).value) else None
  {
    var r := DoValueFrom(cfg, s, fn, 0, None);
    var erased := Erased(fn);
    m := Trace(cfg, s, erased, 0, None);
    LoopsSimulate(cfg, s, fn, 0, None);
    ValueOfLastCall(cfg, s, fn, 0, None);
    assert Traced(cfg, s, erased, 0, m, Erase(r));
    if r.value.Some? {
      assert m > 0 && Stops(s, erased, m - 1);
      assert r.events[|r.events| - 1] == Deed(cfg, s, 0, 2 * (m - 1)) == Call(m - 1);
    }
  }
}
