/** What a cancellation does to `async.Fan`, and what every single call of fn contributes to the
    returned slice. */
module FanTheorems {
  import opened Wrappers
  import opened FanProtocol

  // ---------------------------------------------------------------------------------------------
  // Cancellation
  // ---------------------------------------------------------------------------------------------

  /** The goroutines that are launched in the end when nothing more passes the context check. */
  function Committed(m: Main): nat {
    m.Launched() + (if m.Launching? || m.Counted? then 1 else 0)
  }

  lemma {:induction false} NothingPassesTheCheck(cfg: Config, s: State, steps: seq<Step>, t: State)
    requires cfg.watchesContext && s.ctx.Some? && WellFormed(cfg, s) && Run(cfg, s, steps, t)
    ensures WellFormed(cfg, t) && t.ctx == s.ctx && Committed(t.main) == Committed(s.main)
    decreases |steps|
  {
    if steps != [] {
      NothingPassesTheCheck(cfg, Next(cfg, s, steps[0]), steps[1..], t);
    }
  }

  /** A cancelled context stops Fan: from then on at most one more goroutine is launched, the one whose
      check lies behind. When Fan returns exactly the committed ones have run, and if that is not
      all, the error of the context is in the slice. */
  lemma CancelledFanStops(cfg: Config, before: seq<Step>, s: State, after: seq<Step>, t: State)
    requires cfg.watchesContext && s.ctx.Some?
    requires Run(cfg, Init(cfg), before, s) && Run(cfg, s, after, t)
    ensures t.main.Launched() <= s.main.Launched() + 1
    ensures t.main.Launched() > s.main.Launched() ==> s.main.Launching? || s.main.Counted?
    ensures t.main.Finished? ==> t.main.launched == Committed(s.main)
    ensures t.main.Finished? && s.main.AtCheck? && s.main.i < cfg.size ==>
              t.main.launched == s.main.i && s.ctx.value in t.errs
    ensures t.main.Finished? && t.main.launched < cfg.size ==> s.ctx.value in t.errs
  {
    InitInv(cfg);
    RunInv(cfg, Init(cfg), before, s);
    RunInv(cfg, s, after, t);
    NothingPassesTheCheck(cfg, s, after, t);
    assert Conserved(cfg, t, s.ctx.value);
  }

  /** A context that is cancelled before the call: nothing is launched and the slice holds nothing but
      its error. */
  lemma CancelledBeforehand(cfg: Config, cause: Error, steps: seq<Step>, t: State)
    requires cfg.watchesContext && cfg.size > 0 && IsContextError(cause)
    requires Enabled(cfg, Init(cfg), Cancel(cause)) && Run(cfg, Next(cfg, Init(cfg), Cancel(cause)), steps, t)
    requires t.main.Finished?
    ensures t.main.launched == 0 && t.errs == [cause]
  {
    var run := [Cancel(cause)] + steps;
    assert run[1..] == steps;
    var s := Next(cfg, Init(cfg), Cancel(cause));
    assert Run(cfg, Init(cfg), [Cancel(cause)], s) by { assert [Cancel(cause)][1..] == []; }
    CancelledFanStops(cfg, [Cancel(cause)], s, steps, t);
    NothingPassesTheCheck(cfg, s, steps, t);
    ErrorConservation(cfg, run, t);
    assert multiset(t.errs) == multiset{cause};
    assert |multiset(t.errs)| == |t.errs| == 1;
    assert t.errs[0] in multiset(t.errs);
  }

  // ---------------------------------------------------------------------------------------------
  // Contributions
  // ---------------------------------------------------------------------------------------------

  /** The worker is past its call of fn, which ended with `end`. */
  predicate EndedWith(w: Worker, end: Ending) {
    (w.Failing? || w.Leaving? || w.Exited?) && w.end == end
  }

  lemma {:induction false} EndingIsKept(cfg: Config, s: State, steps: seq<Step>, t: State, i: nat, end: Ending)
    requires Inv(cfg, s) && Run(cfg, s, steps, t) && i < cfg.size && EndedWith(s.workers[i], end)
    ensures |t.workers| == cfg.size && EndedWith(t.workers[i], end)
    decreases |steps|
  {
    if steps != [] {
      StepInv(cfg, s, steps[0]);
      EndingIsKept(cfg, Next(cfg, s, steps[0]), steps[1..], t, i, end);
    }
  }

  /** However the call of fn in goroutine i ends, that is what the goroutine has exited with when the
      caller returns. */
  lemma CallIsAccounted(cfg: Config, before: seq<Step>, s: State, i: nat, end: Ending, after: seq<Step>, t: State)
    requires Run(cfg, Init(cfg), before, s) && Enabled(cfg, s, WorkerStep(i, end)) && s.workers[i].Running?
    requires Run(cfg, Next(cfg, s, WorkerStep(i, end)), after, t) && t.main.Finished?
    ensures i < t.main.launched && t.main.launched <= |t.workers| && t.workers[i] == Exited(end)
  {
    InitInv(cfg);
    RunInv(cfg, Init(cfg), before, s);
    StepInv(cfg, s, WorkerStep(i, end));
    RunInv(cfg, Next(cfg, s, WorkerStep(i, end)), after, t);
    EndingIsKept(cfg, Next(cfg, s, WorkerStep(i, end)), after, t, i, end);
    assert i !in Live(t.workers);
  }

  /** The call returned e, or panicked and e is the recovered panic. */
  predicate Reports(end: Ending, e: Error) {
    end == WithError(e) || (end.WithPanic? && e == Panicked(end.payload))
  }

  ghost function Reporters(ends: seq<Ending>, e: Error): set<nat> {
    set i: nat | i < |ends| && Reports(ends[i], e)
  }

  lemma EntryCount(end: Ending, e: Error)
    ensures multiset(end.Entry())[e] == if Reports(end, e) then 1 else 0
  {
  }

  lemma ReportersStep(ends: seq<Ending>, e: Error)
    requires |ends| > 0
    ensures |Reporters(ends, e)| == |Reporters(ends[..|ends| - 1], e)| + (if Reports(ends[|ends| - 1], e) then 1 else 0)
  {
    var n := |ends| - 1;
    var rest := Reporters(ends[..n], e);
    assert Reporters(ends, e) == if Reports(ends[n], e) then rest + {n} else rest;
  }

  lemma {:induction false} BagCountsReporters(ends: seq<Ending>, e: Error)
    ensures Bag(ends)[e] == |Reporters(ends, e)|
  {
    if |ends| > 0 {
      BagCountsReporters(ends[..|ends| - 1], e);
      ReportersStep(ends, e);
      EntryCount(ends[|ends| - 1], e);
    }
  }

  /** The returned slice, error by error: each occurs once for every launched goroutine whose call
      returned it or panicked with it, and the context's error once more if and only if the loop broke
      early. */
  lemma ReturnedErrors(cfg: Config, steps: seq<Step>, t: State, e: Error)
    requires Run(cfg, Init(cfg), steps, t) && t.main.Finished?
    ensures t.main.launched <= |t.workers| && forall i :: 0 <= i < t.main.launched ==> t.workers[i].Exited?
    ensures multiset(t.errs)[e] ==
            |Reporters(Endings(t), e)| + (if t.main.launched < cfg.size && t.ctx == Some(e) then 1 else 0)
  {
    ErrorConservation(cfg, steps, t);
    BagCountsReporters(Endings(t), e);
  }

  // ---------------------------------------------------------------------------------------------
  // Unbounded parallelism
  // ---------------------------------------------------------------------------------------------

  /** All the goroutines may be inside fn at the same time. */
  lemma {:induction false} AllAtOnce(cfg: Config, n: nat) returns (steps: seq<Step>, s: State)
    requires n <= cfg.size
    ensures Run(cfg, Init(cfg), steps, s) && WellFormed(cfg, s) && s.main == AtCheck(n) && s.ctx.None?
    ensures forall i :: 0 <= i < n ==> s.workers[i].Running?
    decreases n
  {
    if n == 0 {
      steps, s := [], Init(cfg);
    } else {
      steps, s := AllAtOnce(cfg, n - 1);
      steps, s := Go(cfg, steps, s, MainStep);
      steps, s := Go(cfg, steps, s, MainStep);
      steps, s := Go(cfg, steps, s, MainStep);
    }
  }

  lemma Go(cfg: Config, steps: seq<Step>, s: State, step: Step) returns (more: seq<Step>, t: State)
    requires Run(cfg, Init(cfg), steps, s) && Enabled(cfg, s, step)
    ensures Run(cfg, Init(cfg), more, t) && t == Next(cfg, s, step)
  {
    RunSnoc(cfg, Init(cfg), steps, s, step);
    more, t := steps + [step], Next(cfg, s, step);
  }
}
