/** Two runs of `async.Map` that contradict its documentation: neither the context error nor the error
    that came first in time is the one returned. */
module MapWitnesses {
  import opened Wrappers
  import opened MapProtocol
  import opened MapSchedules

  const First := Failed(0)
  const Second := Failed(1)

  /** Both items fail. */
  function Failing(concurrency: int): (cfg: Config<int>)
    ensures cfg.Size() == 2
  {
    Config([Returns(0, Some(First)), Returns(0, Some(Second))], concurrency, 0)
  }

  /** A cancelled call that breaks early and does not return the error of its context: the first item
      fails, the context is cancelled, and the second item is never launched. */
  lemma BreaksEarlyWithoutContextError() returns (steps: seq<Step<int>>, t: State<int>)
    ensures CompleteRun(Failing(1), steps, t)
    ensures t.main.launched == 1 < Failing(1).Size() && t.ctx == Some(Canceled)
    ensures t.main.err == Some(First) != t.ctx
  {
    var cfg := Failing(1);
    steps, t := Launch(cfg, Init(cfg), [], Init(cfg));
    steps, t := Serve(cfg, Init(cfg), steps, t, 0);
    steps, t := Go(cfg, Init(cfg), steps, t, Cancel(Canceled));
    assert Matches(true, t.errs[0]);
    steps, t := Conclude(cfg, Init(cfg), steps, t);
  }

  /** An uncancelled call that does not return the first error in time: at s the second item has failed
      while the first has not even been called, and yet the error of the first is returned. */
  lemma LaterErrorIsReturned() returns (before: seq<Step<int>>, s: State<int>, after: seq<Step<int>>, t: State<int>)
    ensures Run(Failing(2), Init(Failing(2)), before, s) && Run(Failing(2), s, after, t)
    ensures s.errs == [None, Some(Second)] && s.workers == [Spawned, Exited]
    ensures t.ctx.None? && t.main == Finished(2, Some(First))
  {
    var cfg := Failing(2);
    before, s := Launch(cfg, Init(cfg), [], Init(cfg));
    before, s := Launch(cfg, Init(cfg), before, s);
    before, s := Serve(cfg, Init(cfg), before, s, 1);
    after, t := Serve(cfg, s, [], s, 0);
    assert Matches(true, t.errs[0]);
    after, t := Conclude(cfg, s, after, t);
  }
}
