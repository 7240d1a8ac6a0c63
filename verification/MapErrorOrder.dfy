/** Which error of `async.Map` comes first in time, over all schedules, and when it is the one that is
    returned. `specific` selects what counts as an error here: everything, or everything but the
    context's errors. */
module MapErrorOrder {
  import opened Wrappers
  import opened MapProtocol
  import opened MapSchedules

  /** The items before j that end in an error. */
  ghost function Earlier<R>(cfg: Config<R>, specific: bool, j: nat): set<nat> {
    set i: nat | i < j && i < cfg.Size() && Matches(specific, ErrorOf(cfg.fns[i]))
  }

  /** A complete uncancelled run in which `step` is the first to write an error, namely e. */
  ghost predicate WritesFirst<R>(cfg: Config<R>, specific: bool, before: seq<Step<R>>, s: State<R>, step: Step<R>,
                                 e: Option<Error>, after: seq<Step<R>>, t: State<R>)
  {
    && Run(cfg, Init(cfg), before, s) && Enabled(cfg, s, step)
    && FirstMatch(s.errs, specific).None?
    && FirstMatch(Next(cfg, s, step).errs, specific) == e && e.Some?
    && Run(cfg, Next(cfg, s, step), after, t) && t.main.Finished? && t.ctx.None?
  }

  /** A cancellation is never taken back. */
  lemma {:induction false} CancelledForGood<R>(cfg: Config<R>, s: State<R>, steps: seq<Step<R>>, t: State<R>)
    requires Run(cfg, s, steps, t) && t.ctx.None?
    ensures s.ctx.None?
    decreases |steps|
  {
    if steps != [] {
      CancelledForGood(cfg, Next(cfg, s, steps[0]), steps[1..], t);
    }
  }

  // ---------------------------------------------------------------------------------------------
  // Only the first Capacity() errors in input order can come first in time
  // ---------------------------------------------------------------------------------------------

  /** As long as no error has been written, the launched items that end in one still hold a token. */
  lemma ErrorsHoldTokens<R>(cfg: Config<R>, specific: bool, s: State<R>, j: nat)
    requires Inv(cfg, s) && s.ctx.None? && FirstMatch(s.errs, specific).None?
    requires j < cfg.Size() && s.workers[j].HoldsToken()
    ensures |Earlier(cfg, specific, j)| < cfg.Capacity()
  {
    forall i | i in Earlier(cfg, specific, j) ensures i in Holders(s.workers) {
      assert Cell(cfg, s, i) && !Matches(specific, s.errs[i]);
      assert i < s.main.Launched();
      assert !s.workers[i].Idle?;
    }
    assert j in Holders(s.workers);
    SubsetSize(Earlier(cfg, specific, j) + {j}, Holders(s.workers));
    assert |Earlier(cfg, specific, j) + {j}| == |Earlier(cfg, specific, j)| + 1;
  }

  /** The step that writes the first error is a worker's, and the error is that of its item. */
  lemma FirstWriter<R>(cfg: Config<R>, specific: bool, s: State<R>, step: Step<R>) returns (j: nat)
    requires Inv(cfg, s) && Enabled(cfg, s, step)
    requires FirstMatch(s.errs, specific).None? && FirstMatch(Next(cfg, s, step).errs, specific).Some?
    requires s.ctx.None?
    ensures j < cfg.Size() && s.workers[j].HoldsToken()
    ensures FirstMatch(Next(cfg, s, step).errs, specific) == ErrorOf(cfg.fns[j])
    ensures Matches(specific, ErrorOf(cfg.fns[j]))
  {
    j := step.idx;
    var t := Next(cfg, s, step);
    assert Cell(cfg, s, j);
    var e := FirstMatch(t.errs, specific);
    var k :| 0 <= k < |t.errs| && t.errs[k] == e && Matches(specific, t.errs[k]);
    assert k == j;
  }

  // ---------------------------------------------------------------------------------------------
  // and each of them can
  // ---------------------------------------------------------------------------------------------

  /** The first n items are launched; those that end in an error have not started, the others are done. */
  ghost predicate Stalled<R>(cfg: Config<R>, specific: bool, s: State<R>, n: nat) {
    && Inv(cfg, s) && s.ctx.None? && s.main == AtCheck(n)
    && (forall i :: 0 <= i < n ==>
          s.workers[i] == if Matches(specific, ErrorOf(cfg.fns[i])) then Spawned else Exited)
  }

  lemma StalledTokens<R>(cfg: Config<R>, specific: bool, s: State<R>, n: nat)
    requires Stalled(cfg, specific, s, n)
    ensures s.tokens == |Earlier(cfg, specific, n)|
    ensures FirstMatch(s.errs, specific).None?
  {
    assert Holders(s.workers) == Earlier(cfg, specific, n);
    forall i | 0 <= i < |s.errs| ensures !Matches(specific, s.errs[i]) {
      assert Cell(cfg, s, i);
    }
  }

  lemma {:induction false} Stall<R>(cfg: Config<R>, specific: bool, n: nat) returns (steps: seq<Step<R>>, s: State<R>)
    requires n <= cfg.Size() && |Earlier(cfg, specific, n)| < cfg.Capacity()
    ensures Run(cfg, Init(cfg), steps, s) && Stalled(cfg, specific, s, n)
    decreases n
  {
    InitInv(cfg);
    if n == 0 {
      steps, s := [], Init(cfg);
    } else {
      SubsetSize(Earlier(cfg, specific, n - 1), Earlier(cfg, specific, n));
      var stalled;
      steps, stalled := Stall(cfg, specific, n - 1);
      steps, s := StallNext(cfg, specific, steps, stalled, n - 1);
    }
  }

  /** One more item is launched, and done unless it ends in an error. */
  lemma StallNext<R>(cfg: Config<R>, specific: bool, steps: seq<Step<R>>, s: State<R>, n: nat)
    returns (more: seq<Step<R>>, t: State<R>)
    requires Run(cfg, Init(cfg), steps, s) && Stalled(cfg, specific, s, n)
    requires n < cfg.Size() && |Earlier(cfg, specific, n)| < cfg.Capacity()
    ensures Run(cfg, Init(cfg), more, t) && Stalled(cfg, specific, t, n + 1)
  {
    StalledTokens(cfg, specific, s, n);
    more, t := Launch(cfg, Init(cfg), steps, s);
    if !Matches(specific, ErrorOf(cfg.fns[n])) {
      more, t := Serve(cfg, Init(cfg), more, t, n);
    }
    InitInv(cfg);
    RunInv(cfg, Init(cfg), more, t);
  }

  /** A schedule in which item j is the first to write an error. */
  lemma CanWriteFirst<R>(cfg: Config<R>, specific: bool, j: nat)
    returns (before: seq<Step<R>>, s: State<R>, step: Step<R>, after: seq<Step<R>>, t: State<R>)
    requires j < cfg.Size() && Matches(specific, ErrorOf(cfg.fns[j]))
    requires |Earlier(cfg, specific, j)| < cfg.Capacity()
    ensures WritesFirst(cfg, specific, before, s, step, ErrorOf(cfg.fns[j]), after, t)
  {
    before, s := Stall(cfg, specific, j);
    StalledTokens(cfg, specific, s, j);
    before, s := Launch(cfg, Init(cfg), before, s);
    before, s := Work(cfg, Init(cfg), before, s, j);
    step := WorkerStep(j, cfg.fns[j]);
    Write(cfg, s, j, cfg.fns[j]);
    OnlyMatch(s.errs, specific, j, ErrorOf(cfg.fns[j]));
    InitInv(cfg);
    RunInv(cfg, Init(cfg), before, s);
    StepInv(cfg, s, step);
    after, t := Complete(cfg, Next(cfg, s, step));
  }

  lemma OnlyMatch(errs: seq<Option<Error>>, specific: bool, j: nat, e: Option<Error>)
    requires j < |errs| && FirstMatch(errs, specific).None? && Matches(specific, e)
    ensures FirstMatch(errs[j := e], specific) == e
  {
    var after := errs[j := e];
    assert Matches(specific, after[j]);
    forall i | 0 <= i < |after| && i != j ensures !Matches(specific, after[i]) {
      assert after[i] == errs[i];
    }
  }

  // ---------------------------------------------------------------------------------------------
  // Theorems
  // ---------------------------------------------------------------------------------------------

  /** Exactly the errors of the first Capacity() failing items can be the first in time. */
  lemma FirstInTime<R>(cfg: Config<R>, specific: bool, e: Option<Error>)
    ensures (exists before, s, step, after, t :: WritesFirst(cfg, specific, before, s, step, e, after, t)) <==>
            exists j: nat :: j < cfg.Size() && Matches(specific, ErrorOf(cfg.fns[j])) && ErrorOf(cfg.fns[j]) == e &&
                             |Earlier(cfg, specific, j)| < cfg.Capacity()
  {
    forall before, s, step, after, t | WritesFirst(cfg, specific, before, s, step, e, after, t)
      ensures exists j: nat :: j < cfg.Size() && Matches(specific, ErrorOf(cfg.fns[j])) && ErrorOf(cfg.fns[j]) == e &&
                               |Earlier(cfg, specific, j)| < cfg.Capacity()
    {
      var j := WriterIsEarly(cfg, specific, before, s, step, e, after, t);
    }
    forall j: nat | j < cfg.Size() && Matches(specific, ErrorOf(cfg.fns[j])) && ErrorOf(cfg.fns[j]) == e &&
                    |Earlier(cfg, specific, j)| < cfg.Capacity()
      ensures exists before, s, step, after, t :: WritesFirst(cfg, specific, before, s, step, e, after, t)
    {
      var before, s, step, after, t := CanWriteFirst(cfg, specific, j);
    }
  }

  lemma WriterIsEarly<R>(cfg: Config<R>, specific: bool, before: seq<Step<R>>, s: State<R>, step: Step<R>,
                         e: Option<Error>, after: seq<Step<R>>, t: State<R>) returns (j: nat)
    requires WritesFirst(cfg, specific, before, s, step, e, after, t)
    ensures j < cfg.Size() && Matches(specific, ErrorOf(cfg.fns[j])) && ErrorOf(cfg.fns[j]) == e
    ensures |Earlier(cfg, specific, j)| < cfg.Capacity()
    ensures t.main.err == SequentialError(cfg.fns)
  {
    InitInv(cfg);
    RunInv(cfg, Init(cfg), before, s);
    StepInv(cfg, s, step);
    RunInv(cfg, Next(cfg, s, step), after, t);
    CancelledForGood(cfg, Next(cfg, s, step), after, t);
    j := FirstWriter(cfg, specific, s, step);
    ErrorsHoldTokens(cfg, specific, s, j);
    LiveContextIsFaithful(cfg, t);
  }

  /** The documented "first encountered error": in every uncancelled schedule the returned error is the
      first one in time if and only if the first Capacity() errors in input order all equal the one
      that the sequential map returns. */
  lemma ReturnsFirstInTimeIff<R>(cfg: Config<R>, specific: bool)
    ensures (forall before, s, step, e, after, t :: WritesFirst(cfg, specific, before, s, step, e, after, t) ==> t.main.err == e)
            <==>
            (forall j: nat :: j < cfg.Size() && Matches(specific, ErrorOf(cfg.fns[j])) && |Earlier(cfg, specific, j)| < cfg.Capacity()
                              ==> ErrorOf(cfg.fns[j]) == SequentialError(cfg.fns))
  {
    forall before, s, step, e, after, t | WritesFirst(cfg, specific, before, s, step, e, after, t)
      ensures t.main.err == SequentialError(cfg.fns)
      ensures exists j: nat :: j < cfg.Size() && Matches(specific, ErrorOf(cfg.fns[j])) && ErrorOf(cfg.fns[j]) == e &&
                               |Earlier(cfg, specific, j)| < cfg.Capacity()
    {
      var j := WriterIsEarly(cfg, specific, before, s, step, e, after, t);
    }
    forall j: nat | j < cfg.Size() && Matches(specific, ErrorOf(cfg.fns[j])) && |Earlier(cfg, specific, j)| < cfg.Capacity()
      ensures exists before, s, step, after, t ::
                WritesFirst(cfg, specific, before, s, step, ErrorOf(cfg.fns[j]), after, t) &&
                t.main.err == SequentialError(cfg.fns)
    {
      var before, s, step, after, t := CanWriteFirst(cfg, specific, j);
      var _ := WriterIsEarly(cfg, specific, before, s, step, ErrorOf(cfg.fns[j]), after, t);
    }
  }
}
