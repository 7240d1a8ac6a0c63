/** `async.Map` in its own form: two slices written in place by the workers, a token count, a
    WaitGroup counter. Every atomic step of a goroutine is a method proved against the step system
    of `MapProtocol`, and `Map` drives the steps by an arbitrary scheduler until Map returns. */
module MapCall {
  import opened Wrappers
  import opened MapProtocol

  class Call<R(==)> {
    const cfg: Config<R>
    const results: array<R>
    const errs: array<Option<Error>>
    const workers: array<Worker<R>>
    var main: Main
    var tokens: int
    var pending: int
    var ctx: Option<Error>
    var outcomes: seq<Option<Outcome<R>>>

    predicate Valid()
      reads this, results, errs, workers
    {
      && results as object != errs && results as object != workers && errs as object != workers
      && WellFormed(cfg, View())
    }

    /** The abstract state of the step system. */
    function View(): State<R>
      reads this, results, errs, workers
    {
      State(main, workers[..], tokens, pending, ctx, results[..], errs[..], outcomes)
    }

    /** Allocates the two slices, the semaphore and the WaitGroup. */
    constructor (cfg: Config<R>)
      ensures Valid() && this.cfg == cfg && View() == Init(cfg)
      ensures fresh(results) && fresh(errs) && fresh(workers)
    {
      this.cfg := cfg;
      results := new R[cfg.Size()](_ => cfg.zero);
      errs := new Option<Error>[cfg.Size()](_ => None);
      workers := new Worker<R>[cfg.Size()](_ => Idle);
      main := AtCheck(0);
      tokens, pending := 0, 0;
      ctx := None;
      outcomes := seq(cfg.Size(), _ => None);
      new;
      assert View() == Init(cfg);
    }

    /** A scanning loop over the error slice. */
    method Scan(specific: bool) returns (r: Option<Error>)
      ensures r == FirstMatch(errs[..], specific)
    {
      for i := 0 to errs.Length
        invariant FirstMatch(errs[..i], specific) == None
      {
        assert errs[..i + 1][..i] == errs[..i];
        if Matches(specific, errs[i]) {
          FirstMatchPrefix(errs[..], i + 1, specific);
          return errs[i];
        }
      }
      assert errs[..errs.Length] == errs[..];
      return None;
    }

    /** The next step of the goroutine that called Map. */
    method LoopStep(takeDone: bool)
      requires Valid() && Enabled(cfg, View(), MainStep(takeDone))
      modifies this, workers
      ensures Valid() && View() == Next(cfg, old(View()), MainStep(takeDone))
    {
      match main {
        case AtCheck(i) =>
          main := if i == cfg.Size() || ctx.Some? then Waiting(i) else AtSelect(i);
        case AtSelect(i) =>
          if takeDone {
            main := Waiting(i);
          } else {
            tokens := tokens + 1;
            main := Acquired(i);
          }
        case Acquired(i) =>
          pending := pending + 1;
          main := Counted(i);
        case Counted(i) =>
          workers[i] := Spawned;
          main := AtCheck(i + 1);
        case Waiting(k) =>
          main := Scanning(k);
        case Scanning(k) =>
          var e := Scan(true);
          main := if e.Some? then Finished(k, e) else Checking(k);
        case Checking(k) =>
          main := if ctx.Some? then Finished(k, ctx) else Rescanning(k);
        case Rescanning(k) =>
          var e := Scan(false);
          main := Finished(k, e);
      }
    }

    /** The next step of worker i; `outcome` is what fn does if the worker is inside fn. */
    method WorkerStep(i: nat, outcome: Outcome<R>)
      requires Valid() && Enabled(cfg, View(), Step.WorkerStep(i, outcome))
      modifies this, results, errs, workers
      ensures Valid() && View() == Next(cfg, old(View()), Step.WorkerStep(i, outcome))
    {
      match workers[i] {
        case Spawned =>
          if ctx.Some? {
            errs[i] := ctx;
            workers[i] := Unwinding;
          } else {
            workers[i] := Running;
          }
        case Running =>
          outcomes := outcomes[i := Some(outcome)];
          match outcome {
            case Returns(v, e) => workers[i] := Returned(v, e);
            case Panics(p) => workers[i] := Recovering(p);
          }
        case Returned(v, e) =>
          results[i] := v;
          workers[i] := Stored(e);
        case Stored(e) =>
          errs[i] := e;
          workers[i] := Unwinding;
        case Recovering(p) =>
          errs[i] := Some(Panicked(p));
          workers[i] := Unwinding;
        case Unwinding =>
          tokens := tokens - 1;
          workers[i] := Released;
        case Released =>
          pending := pending - 1;
          workers[i] := Exited;
      }
    }

    /** Any step of the system, the cancellation included. */
    method Do(step: Step<R>)
      requires Valid() && Enabled(cfg, View(), step)
      modifies this, results, errs, workers
      ensures Valid() && View() == Next(cfg, old(View()), step)
    {
      match step
      case Cancel(cause) => ctx := Some(cause);
      case MainStep(takeDone) => LoopStep(takeDone);
      case WorkerStep(i, outcome) => WorkerStep(i, outcome);
    }
  }

  /** The scan may stop at the first match. */
  lemma {:induction false} FirstMatchPrefix(errs: seq<Option<Error>>, k: nat, specific: bool)
    requires k <= |errs| && FirstMatch(errs[..k], specific).Some?
    ensures FirstMatch(errs, specific) == FirstMatch(errs[..k], specific)
  {
    if k == |errs| {
      assert errs[..k] == errs;
    } else {
      var front := errs[..|errs| - 1];
      assert front[..k] == errs[..k];
      FirstMatchPrefix(front, k, specific);
    }
  }

  /** The schedule so far, and where it has led. */
  ghost predicate Reached<R>(cfg: Config<R>, history: seq<Step<R>>, s: State<R>) {
    && Inv(cfg, s)
    && Run(cfg, Init(cfg), history, s)
    && (s.ctx.None? ==> Uncancelled(history))
  }

  lemma Extend<R>(cfg: Config<R>, history: seq<Step<R>>, s: State<R>, step: Step<R>)
    requires Reached(cfg, history, s) && Enabled(cfg, s, step)
    ensures Reached(cfg, history + [step], Next(cfg, s, step))
    ensures Measure(cfg, Next(cfg, s, step)) < Measure(cfg, s)
  {
    StepDecreases(cfg, s, step);
    RunSnoc(cfg, Init(cfg), history, s, step);
  }

  /** What Map promises about its results. */
  ghost predicate Promise<R>(cfg: Config<R>, results: seq<R>, err: Option<Error>, ctx: Option<Error>) {
    && |results| == cfg.Size()
    && (err.None? ==> results == SequentialResults(cfg.fns, cfg.zero) && SequentialError(cfg.fns).None?)
    && (ctx.None? ==> results == SequentialResults(cfg.fns, cfg.zero) && err == SequentialError(cfg.fns))
  }

  lemma Conclude<R>(cfg: Config<R>, history: seq<Step<R>>, s: State<R>)
    requires Reached(cfg, history, s) && s.main.Finished?
    ensures CompleteRun(cfg, history, s) && |history| <= 10 * cfg.Size() + 6
    ensures Promise(cfg, s.results, s.main.err, s.ctx)
  {
    Termination(cfg, history, s);
    if s.ctx.None? {
      UncancelledRefinesSequentialMap(cfg, history, s);
    }
    if s.main.err.None? {
      NilErrorMeansSequentialMap(cfg, history, s);
      NoSequentialError(cfg.fns);
    }
  }

  lemma NoSequentialError<R>(fns: seq<Outcome<R>>)
    requires forall i :: 0 <= i < |fns| ==> fns[i].Returns? && fns[i].err.None?
    ensures SequentialError(fns).None?
  {
  }

  /** A whole call of Map under an arbitrary scheduler: any enabled step, of any goroutine or of the
      context, may come next. It always returns; `history` is the schedule that happened and `final`
      the state it led to. */
  method Map<R(==)>(cfg: Config<R>)
    returns (results: array<R>, err: Option<Error>, ctx: Option<Error>, ghost history: seq<Step<R>>, ghost final: State<R>)
    ensures fresh(results)
    ensures Promise(cfg, results[..], err, ctx)
    ensures CompleteRun(cfg, history, final) && |history| <= 10 * cfg.Size() + 6
    ensures final.results == results[..] && final.main.err == err && final.ctx == ctx
  {
    var call := new Call(cfg);
    history := [];
    InitInv(cfg);
    while !call.main.Finished?
      invariant call.Valid() && call.cfg == cfg
      invariant fresh(call) && fresh(call.results) && fresh(call.errs) && fresh(call.workers)
      invariant Reached(cfg, history, call.View())
      decreases Measure(cfg, call.View())
    {
      Progress(cfg, call.View());
      var step: Step<R> :| Enabled(cfg, call.View(), step);
      Extend(cfg, history, call.View(), step);
      history := history + [step];
      call.Do(step);
    }
    results, err, ctx := call.results, call.main.err, call.ctx;
    final := call.View();
    Conclude(cfg, history, final);
  }
}
