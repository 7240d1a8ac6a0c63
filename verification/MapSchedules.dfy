/** Building schedules of `async.Map` piece by piece. */
module MapSchedules {
  import opened Wrappers
  import opened MapProtocol

  lemma Go<R>(cfg: Config<R>, a: State<R>, steps: seq<Step<R>>, s: State<R>, step: Step<R>)
    returns (more: seq<Step<R>>, t: State<R>)
    requires Run(cfg, a, steps, s) && Enabled(cfg, s, step)
    ensures Run(cfg, a, more, t) && t == Next(cfg, s, step)
  {
    RunSnoc(cfg, a, steps, s, step);
    more, t := steps + [step], Next(cfg, s, step);
  }

  /** The loop launches the next item. */
  lemma Launch<R>(cfg: Config<R>, a: State<R>, steps: seq<Step<R>>, s: State<R>)
    returns (more: seq<Step<R>>, t: State<R>)
    requires Run(cfg, a, steps, s) && WellFormed(cfg, s)
    requires s.main.AtCheck? && s.main.i < cfg.Size() && s.ctx.None? && s.tokens < cfg.Capacity()
    ensures Run(cfg, a, more, t) && WellFormed(cfg, t)
    ensures t == s.(main := AtCheck(s.main.i + 1), workers := s.workers[s.main.i := Spawned],
                    tokens := s.tokens + 1, pending := s.pending + 1)
  {
    more, t := Go(cfg, a, steps, s, MainStep(false));
    more, t := Go(cfg, a, more, t, MainStep(false));
    more, t := Go(cfg, a, more, t, MainStep(false));
    more, t := Go(cfg, a, more, t, MainStep(false));
  }

  /** The stage in which a worker is about to write its error. */
  function AboutToWrite<R>(o: Outcome<R>): Worker<R> {
    match o
    case Returns(_, e) => Stored(e)
    case Panics(p) => Recovering(p)
  }

  /** A spawned worker runs up to the write of its error. */
  lemma Work<R>(cfg: Config<R>, a: State<R>, steps: seq<Step<R>>, s: State<R>, i: nat)
    returns (more: seq<Step<R>>, t: State<R>)
    requires Run(cfg, a, steps, s) && WellFormed(cfg, s)
    requires i < cfg.Size() && s.workers[i].Spawned? && s.ctx.None?
    ensures Run(cfg, a, more, t) && WellFormed(cfg, t)
    ensures t == s.(workers := s.workers[i := AboutToWrite(cfg.fns[i])],
                    results := s.results[i := ResultOf(cfg.fns[i], s.results[i])],
                    outcomes := s.outcomes[i := Some(cfg.fns[i])])
  {
    var step := WorkerStep(i, cfg.fns[i]);
    more, t := Go(cfg, a, steps, s, step);
    more, t := Go(cfg, a, more, t, step);
    if cfg.fns[i].Returns? {
      more, t := Go(cfg, a, more, t, step);
    } else {
      assert s.results[i := s.results[i]] == s.results;
    }
  }

  /** It writes its error. */
  lemma Write<R>(cfg: Config<R>, s: State<R>, i: nat, o: Outcome<R>)
    requires WellFormed(cfg, s) && i < cfg.Size() && s.workers[i] == AboutToWrite(o)
    ensures Enabled(cfg, s, WorkerStep(i, o))
    ensures Next(cfg, s, WorkerStep(i, o)) == s.(workers := s.workers[i := Unwinding], errs := s.errs[i := ErrorOf(o)])
  {
  }

  /** A spawned worker runs from its context check to its exit. */
  lemma Serve<R>(cfg: Config<R>, a: State<R>, steps: seq<Step<R>>, s: State<R>, i: nat)
    returns (more: seq<Step<R>>, t: State<R>)
    requires Run(cfg, a, steps, s) && WellFormed(cfg, s)
    requires i < cfg.Size() && s.workers[i].Spawned? && s.ctx.None? && s.tokens > 0
    ensures Run(cfg, a, more, t) && WellFormed(cfg, t)
    ensures t == s.(workers := s.workers[i := Exited], tokens := s.tokens - 1, pending := s.pending - 1,
                    results := s.results[i := ResultOf(cfg.fns[i], s.results[i])],
                    errs := s.errs[i := ErrorOf(cfg.fns[i])],
                    outcomes := s.outcomes[i := Some(cfg.fns[i])])
  {
    var step := WorkerStep(i, cfg.fns[i]);
    more, t := Work(cfg, a, steps, s, i);
    Write(cfg, t, i, cfg.fns[i]);
    more, t := Go(cfg, a, more, t, step);
    more, t := Go(cfg, a, more, t, step);
    more, t := Go(cfg, a, more, t, step);
  }

  /** With nothing pending and a specific error in the slice, Map returns it. */
  lemma Conclude<R>(cfg: Config<R>, a: State<R>, steps: seq<Step<R>>, s: State<R>)
    returns (more: seq<Step<R>>, t: State<R>)
    requires Run(cfg, a, steps, s) && WellFormed(cfg, s) && s.pending == 0
    requires s.main.AtCheck? && (s.main.i == cfg.Size() || s.ctx.Some?)
    requires FirstMatch(s.errs, true).Some?
    ensures Run(cfg, a, more, t) && t == s.(main := Finished(s.main.i, FirstMatch(s.errs, true)))
  {
    more, t := Go(cfg, a, steps, s, MainStep(false));
    more, t := Go(cfg, a, more, t, MainStep(false));
    more, t := Go(cfg, a, more, t, MainStep(false));
  }

  /** From any reachable state with a live context the call can be brought to its end without a
      cancellation. */
  lemma {:induction false} Complete<R>(cfg: Config<R>, s: State<R>) returns (steps: seq<Step<R>>, t: State<R>)
    requires Inv(cfg, s) && s.ctx.None?
    ensures Run(cfg, s, steps, t) && t.main.Finished? && t.ctx.None?
    decreases Measure(cfg, s)
  {
    if s.main.Finished? {
      steps, t := [], s;
    } else {
      Progress(cfg, s);
      var step: Step<R> :| !step.Cancel? && Enabled(cfg, s, step);
      StepDecreases(cfg, s, step);
      var rest;
      rest, t := Complete(cfg, Next(cfg, s, step));
      steps := [step] + rest;
      assert steps[1..] == rest;
    }
  }

  /** The bound is used to the full: a reachable state has that many calls of fn in progress, or all of
      them if there are fewer items. */
  lemma {:induction false} Saturate<R>(cfg: Config<R>, n: nat) returns (steps: seq<Step<R>>, s: State<R>)
    requires n <= cfg.Size() && n <= (if cfg.concurrency <= 0 then 1 else cfg.concurrency)
    ensures Run(cfg, Init(cfg), steps, s) && WellFormed(cfg, s)
    ensures s.main == AtCheck(n) && s.ctx.None? && s.tokens == n
    ensures forall i :: 0 <= i < n ==> s.workers[i].Running?
    decreases n
  {
    if n == 0 {
      steps, s := [], Init(cfg);
    } else {
      steps, s := Saturate(cfg, n - 1);
      steps, s := Launch(cfg, Init(cfg), steps, s);
      steps, s := Go(cfg, Init(cfg), steps, s, WorkerStep(n - 1, cfg.fns[n - 1]));
    }
  }
}
