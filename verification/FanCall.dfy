/** `async.Fan` and `async.Group` in their own form: the goroutines append to one shared slice. */
module FanCall {
  import opened Wrappers
  import opened FanProtocol

  class Collector {
    const cfg: Config
    var main: Main
    var workers: seq<Worker>
    var pending: int
    var ctx: Option<Error>
    var errs: seq<Error>

    function View(): State
      reads this
    {
      State(main, workers, pending, ctx, errs)
    }

    constructor (cfg: Config)
      ensures this.cfg == cfg && View() == Init(cfg)
    {
      this.cfg := cfg;
      main := AtCheck(0);
      workers := seq(cfg.size, _ => Idle);
      pending := 0;
      ctx := None;
      errs := [];
    }

    /** The next step of the launching goroutine. */
    method LaunchStep()
      requires Enabled(cfg, View(), MainStep)
      modifies this
      ensures View() == Next(cfg, old(View()), MainStep)
    {
      match main {
        case AtCheck(i) =>
          if i == cfg.size {
            main := Waiting(i);
          } else if cfg.watchesContext && ctx.Some? {
            main := Reporting(i);
          } else {
            main := Launching(i);
          }
        case Reporting(i) =>
          errs := errs + [ctx.value];
          main := Waiting(i);
        case Launching(i) =>
          pending := pending + 1;
          main := Counted(i);
        case Counted(i) =>
          workers := workers[i := Running];
          main := AtCheck(i + 1);
        case Waiting(k) =>
          main := Finished(k);
      }
    }

    /** The next step of goroutine i; `end` is how fn ends if it is running. */
    method WorkerStep(i: nat, end: Ending)
      requires Enabled(cfg, View(), Step.WorkerStep(i, end))
      modifies this
      ensures View() == Next(cfg, old(View()), Step.WorkerStep(i, end))
    {
      match workers[i] {
        case Running =>
          workers := workers[i := if end.Clean? then Leaving(end) else Failing(end)];
        case Failing(e) =>
          errs := errs + e.Entry();
          workers := workers[i := Leaving(e)];
        case Leaving(e) =>
          workers := workers[i := Exited(e)];
          pending := pending - 1;
      }
    }
  }

  /** A whole call under an arbitrary scheduler. `history` is the schedule that happened and `final`
      the state it led to; `ends` is how the launched functions ended in it. */
  method Collect(cfg: Config)
    returns (errs: seq<Error>, ends: seq<Ending>, ctx: Option<Error>, ghost history: seq<Step>, ghost final: State)
    ensures Run(cfg, Init(cfg), history, final) && final.main.Finished?
    ensures errs == final.errs && ctx == final.ctx
    ensures |ends| == final.main.launched <= cfg.size == |final.workers|
    ensures forall i :: 0 <= i < |ends| ==> final.workers[i] == Exited(ends[i])
    ensures |ends| < cfg.size ==> cfg.watchesContext && ctx.Some?
    ensures multiset(errs) == Bag(ends) + (if |ends| < cfg.size then multiset{ctx.value} else multiset{})
  {
    var c := new Collector(cfg);
    history := [];
    InitInv(cfg);
    while !c.main.Finished?
      invariant c.cfg == cfg && Inv(cfg, c.View()) && fresh(c)
      invariant Run(cfg, Init(cfg), history, c.View())
      decreases Measure(cfg, c.View())
    {
      Progress(cfg, c.View());
      var step: Step :| Enabled(cfg, c.View(), step);
      StepDecreases(cfg, c.View(), step);
      RunSnoc(cfg, Init(cfg), history, c.View(), step);
      history := history + [step];
      match step
      case Cancel(cause) => c.ctx := Some(cause);
      case MainStep => c.LaunchStep();
      case WorkerStep(i, end) => c.WorkerStep(i, end);
    }
    final := c.View();
    ErrorConservation(cfg, history, final);
    var ws := c.workers;
    errs, ctx := c.errs, c.ctx;
    ends := seq(c.main.launched, i requires 0 <= i < |ws| && ws[i].Exited? => ws[i].end);
    assert ends == Endings(final);
  }
}
