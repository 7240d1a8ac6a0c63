/** `async.Map` as a step system: the launch loop, the counting semaphore, the WaitGroup, the
    workers and a one-way cancellation interleave freely. Every interleaving is a sequence of
    `Step`s, and the theorems at the end speak about all of them. */
module MapProtocol {
  import opened Wrappers

  /** What one call of the user's fn does. */
  datatype Outcome<+R> = Returns(value: R, err: Option<Error>) | Panics(payload: int)

  /** A call of Map. `fns[i]` is what fn does on item i as long as the context is live; once the
      context is cancelled fn may notice and do anything. `zero` is R's zero value. */
  datatype Config<R> = Config(fns: seq<Outcome<R>>, concurrency: int, zero: R) {
    function Size(): nat { |fns| }

    /** Capacity of the semaphore channel. */
    function Capacity(): nat
      ensures Capacity() >= 1
    {
      if concurrency <= 0 then 1 else concurrency
    }
  }

  /** Stages of the goroutine that calls Map. `launched` counts the spawned workers. */
  datatype Main =
    | AtCheck(i: nat)                                     // top of the loop, before ctx.Err()
    | AtSelect(i: nat)                                    // select on ctx.Done() and the semaphore
    | Acquired(i: nat)                                    // token taken, before wg.Add
    | Counted(i: nat)                                     // before the go statement
    | Waiting(launched: nat)                              // wg.Wait
    | Scanning(launched: nat)                             // first scan of errs
    | Checking(launched: nat)                             // ctx.Err() after the first scan
    | Rescanning(launched: nat)                           // last scan of errs
    | Finished(launched: nat, err: Option<Error>)
  {
    function Launched(): nat {
      if AtCheck? || AtSelect? || Acquired? || Counted? then i else launched
    }

    predicate PastWait() {
      Scanning? || Checking? || Rescanning? || Finished?
    }
  }

  /** Stages of a worker goroutine. The deferred calls run in the order recover, release, Done. */
  datatype Worker<+R> =
    | Idle                                                // not spawned
    | Spawned                                             // before its ctx.Err() check
    | Running                                             // inside fn
    | Returned(value: R, err: Option<Error>)              // before results[idx] is written
    | Stored(err: Option<Error>)                          // before errs[idx] is written
    | Recovering(payload: int)                            // before recover writes errs[idx]
    | Unwinding                                           // before the token is released
    | Released                                            // before wg.Done
    | Exited
  {
    predicate HoldsToken() { !Idle? && !Released? && !Exited? }
    predicate IsCounted() { !Idle? && !Exited? }
  }

  /** The shared state. `outcomes[i]` is history: what fn did on item i, if it was called. */
  datatype State<R> = State(
    main: Main,
    workers: seq<Worker<R>>,
    tokens: int,
    pending: int,
    ctx: Option<Error>,
    results: seq<R>,
    errs: seq<Option<Error>>,
    outcomes: seq<Option<Outcome<R>>>)

  /** One atomic step. `takeDone` is the choice of the select statement, `outcome` is what fn does
      when the worker is inside fn. */
  datatype Step<+R> =
    | Cancel(cause: Error)
    | MainStep(takeDone: bool)
    | WorkerStep(idx: nat, outcome: Outcome<R>)

  function Init<R>(cfg: Config<R>): State<R> {
    State(AtCheck(0),
          seq(cfg.Size(), _ => Idle),
          0, 0, None,
          seq(cfg.Size(), _ => cfg.zero),
          seq(cfg.Size(), _ => None),
          seq(cfg.Size(), _ => None))
  }

  // ---------------------------------------------------------------------------------------------
  // Scans of the error slice
  // ---------------------------------------------------------------------------------------------

  /** The predicates of the two scanning loops. */
  predicate Matches(specific: bool, e: Option<Error>) {
    e.Some? && (specific ==> !IsContextError(e.value))
  }

  /** The entry the scanning loop returns: the one with the lowest matching index. */
  function FirstMatch(errs: seq<Option<Error>>, specific: bool): (r: Option<Error>)
    ensures r.None? <==> forall i :: 0 <= i < |errs| ==> !Matches(specific, errs[i])
    ensures r.Some? ==> exists i :: 0 <= i < |errs| && errs[i] == r && Matches(specific, errs[i]) &&
                                    forall j :: 0 <= j < i ==> !Matches(specific, errs[j])
  {
    if |errs| == 0 then None
    else
      var rest := FirstMatch(errs[..|errs| - 1], specific);
      if rest.Some? then rest
      else if Matches(specific, errs[|errs| - 1]) then errs[|errs| - 1]
      else None
  }

  // ---------------------------------------------------------------------------------------------
  // Steps
  // ---------------------------------------------------------------------------------------------

  predicate WellFormed<R>(cfg: Config<R>, s: State<R>) {
    && |s.workers| == |s.results| == |s.errs| == |s.outcomes| == cfg.Size()
    && s.main.Launched() <= cfg.Size()
    && (s.main.AtSelect? || s.main.Acquired? || s.main.Counted? ==> s.main.i < cfg.Size())
  }

  predicate MainEnabled<R>(cfg: Config<R>, s: State<R>, takeDone: bool) {
    match s.main
    case AtSelect(_) => if takeDone then s.ctx.Some? else s.tokens < cfg.Capacity()
    case Waiting(_) => s.pending == 0
    case Finished(_, _) => false
    case _ => true
  }

  function MainNext<R>(cfg: Config<R>, s: State<R>, takeDone: bool): State<R>
    requires WellFormed(cfg, s)
    requires MainEnabled(cfg, s, takeDone)
  {
    match s.main
    case AtCheck(i) =>
      if i == cfg.Size() || s.ctx.Some? then s.(main := Waiting(i)) else s.(main := AtSelect(i))
    case AtSelect(i) =>
      if takeDone then s.(main := Waiting(i)) else s.(main := Acquired(i), tokens := s.tokens + 1)
    case Acquired(i) => s.(main := Counted(i), pending := s.pending + 1)
    case Counted(i) => s.(main := AtCheck(i + 1), workers := s.workers[i := Spawned])
    case Waiting(k) => s.(main := Scanning(k))
    case Scanning(k) =>
      var e := FirstMatch(s.errs, true);
      if e.Some? then s.(main := Finished(k, e)) else s.(main := Checking(k))
    case Checking(k) =>
      if s.ctx.Some? then s.(main := Finished(k, s.ctx)) else s.(main := Rescanning(k))
    case Rescanning(k) => s.(main := Finished(k, FirstMatch(s.errs, false)))
  }

  /** A receive from the semaphore blocks while it is empty. */
  predicate WorkerEnabled<R(==)>(cfg: Config<R>, s: State<R>, i: nat, outcome: Outcome<R>)
    requires WellFormed(cfg, s)
  {
    && i < cfg.Size()
    && match s.workers[i]
       case Idle => false
       case Exited => false
       case Running => s.ctx.None? ==> outcome == cfg.fns[i]
       case Unwinding => s.tokens > 0
       case _ => true
  }

  function WorkerNext<R(==)>(cfg: Config<R>, s: State<R>, i: nat, outcome: Outcome<R>): State<R>
    requires WellFormed(cfg, s)
    requires WorkerEnabled(cfg, s, i, outcome)
  {
    match s.workers[i]
    case Spawned =>
      if s.ctx.Some? then s.(workers := s.workers[i := Unwinding], errs := s.errs[i := s.ctx])
      else s.(workers := s.workers[i := Running])
    case Running =>
      var w := match outcome
        case Returns(v, e) => Returned(v, e)
        case Panics(p) => Recovering(p);
      s.(workers := s.workers[i := w], outcomes := s.outcomes[i := Some(outcome)])
    case Returned(v, e) => s.(workers := s.workers[i := Stored(e)], results := s.results[i := v])
    case Stored(e) => s.(workers := s.workers[i := Unwinding], errs := s.errs[i := e])
    case Recovering(p) =>
      s.(workers := s.workers[i := Unwinding], errs := s.errs[i := Some(Panicked(p))])
    case Unwinding => s.(workers := s.workers[i := Released], tokens := s.tokens - 1)
    case Released => s.(workers := s.workers[i := Exited], pending := s.pending - 1)
  }

  predicate Enabled<R(==)>(cfg: Config<R>, s: State<R>, step: Step<R>) {
    && WellFormed(cfg, s)
    && match step
       case Cancel(cause) => s.ctx.None? && IsContextError(cause)
       case MainStep(takeDone) => MainEnabled(cfg, s, takeDone)
       case WorkerStep(i, o) => WorkerEnabled(cfg, s, i, o)
  }

  function Next<R(==)>(cfg: Config<R>, s: State<R>, step: Step<R>): State<R>
    requires Enabled(cfg, s, step)
  {
    match step
    case Cancel(cause) => s.(ctx := Some(cause))
    case MainStep(takeDone) => MainNext(cfg, s, takeDone)
    case WorkerStep(i, o) => WorkerNext(cfg, s, i, o)
  }

  /** `steps` is an interleaving that leads from s to t. */
  ghost predicate Run<R>(cfg: Config<R>, s: State<R>, steps: seq<Step<R>>, t: State<R>)
    decreases |steps|
  {
    if steps == [] then s == t
    else Enabled(cfg, s, steps[0]) && Run(cfg, Next(cfg, s, steps[0]), steps[1..], t)
  }

  /** `steps` is an interleaving of a whole call of Map, up to its return. */
  ghost predicate CompleteRun<R>(cfg: Config<R>, steps: seq<Step<R>>, t: State<R>) {
    Run(cfg, Init(cfg), steps, t) && t.main.Finished?
  }

  /** No cancellation happens in the run. */
  ghost predicate Uncancelled<R>(steps: seq<Step<R>>) {
    forall i :: 0 <= i < |steps| ==> !steps[i].Cancel?
  }

  // ---------------------------------------------------------------------------------------------
  // The sequential map that every schedule refines
  // ---------------------------------------------------------------------------------------------

  function ResultOf<R>(o: Outcome<R>, zero: R): R {
    if o.Returns? then o.value else zero
  }

  function ErrorOf<R>(o: Outcome<R>): Option<Error> {
    if o.Returns? then o.err else Some(Panicked(o.payload))
  }

  /** Calls fn on the items one after the other and collects the results in input order. */
  function SequentialResults<R>(fns: seq<Outcome<R>>, zero: R): (r: seq<R>)
    ensures |r| == |fns|
    ensures forall i :: 0 <= i < |fns| ==> r[i] == ResultOf(fns[i], zero)
    ensures forall i :: 0 <= i < |fns| ==> r[i] == if fns[i].Returns? then fns[i].value else zero
  {
    if |fns| == 0 then []
    else SequentialResults(fns[..|fns| - 1], zero) + [ResultOf(fns[|fns| - 1], zero)]
  }

  function SequentialErrors<R>(fns: seq<Outcome<R>>): (r: seq<Option<Error>>)
    ensures |r| == |fns|
    ensures forall i :: 0 <= i < |fns| ==> r[i] == ErrorOf(fns[i])
    ensures forall i :: 0 <= i < |fns| ==> r[i] == if fns[i].Returns? then fns[i].err else Some(Panicked(fns[i].payload))
  {
    if |fns| == 0 then []
    else SequentialErrors(fns[..|fns| - 1]) + [ErrorOf(fns[|fns| - 1])]
  }

  /** The error a live context leaves: the first specific one, else the first one. */
  function SequentialError<R>(fns: seq<Outcome<R>>): Option<Error> {
    var errs := SequentialErrors(fns);
    var specific := FirstMatch(errs, true);
    if specific.Some? then specific else FirstMatch(errs, false)
  }

  // ---------------------------------------------------------------------------------------------
  // Invariant
  // ---------------------------------------------------------------------------------------------

  ghost function Holders<R>(ws: seq<Worker<R>>): set<nat> {
    set i: nat | i < |ws| && ws[i].HoldsToken()
  }

  ghost function Live<R>(ws: seq<Worker<R>>): set<nat> {
    set i: nat | i < |ws| && ws[i].IsCounted()
  }

  /** Token and WaitGroup accounting. */
  ghost predicate Accounting<R>(cfg: Config<R>, s: State<R>) {
    && s.tokens == |Holders(s.workers)| + (if s.main.Acquired? || s.main.Counted? then 1 else 0)
    && s.pending == |Live(s.workers)| + (if s.main.Counted? then 1 else 0)
    && s.tokens <= cfg.Capacity()
  }

  /** The spawned workers are exactly a prefix of the items. */
  ghost predicate PrefixLaunched<R>(cfg: Config<R>, s: State<R>)
    requires WellFormed(cfg, s)
  {
    forall i :: 0 <= i < cfg.Size() ==> (s.workers[i].Idle? <==> s.main.Launched() <= i)
  }

  /** Cell i of the two slices holds what its worker has done so far and nothing else. */
  ghost predicate Cell<R>(cfg: Config<R>, s: State<R>, i: nat)
    requires WellFormed(cfg, s) && i < cfg.Size()
  {
    && (s.outcomes[i].Some? && s.ctx.None? ==> s.outcomes[i].value == cfg.fns[i])
    && match s.workers[i]
       case Returned(v, e) =>
         s.outcomes[i] == Some(Returns(v, e)) && s.results[i] == cfg.zero && s.errs[i] == None
       case Stored(e) => s.outcomes[i] == Some(Returns(s.results[i], e)) && s.errs[i] == None
       case Recovering(p) =>
         s.outcomes[i] == Some(Panics(p)) && s.results[i] == cfg.zero && s.errs[i] == None
       case Unwinding => Recorded(cfg, s, i)
       case Released => Recorded(cfg, s, i)
       case Exited => Recorded(cfg, s, i)
       case _ => s.outcomes[i] == None && s.results[i] == cfg.zero && s.errs[i] == None
  }

  /** The worker wrote the outcome of fn, or found the context cancelled and wrote its error. */
  ghost predicate Recorded<R>(cfg: Config<R>, s: State<R>, i: nat)
    requires WellFormed(cfg, s) && i < cfg.Size()
  {
    if s.outcomes[i].Some? then
      && s.results[i] == ResultOf(s.outcomes[i].value, cfg.zero)
      && s.errs[i] == ErrorOf(s.outcomes[i].value)
    else
      s.ctx.Some? && s.results[i] == cfg.zero && s.errs[i] == s.ctx
  }

  /** Both slices are those of the sequential map over all the items. */
  ghost predicate Faithful<R>(cfg: Config<R>, s: State<R>) {
    && s.main.Launched() == cfg.Size()
    && s.results == SequentialResults(cfg.fns, cfg.zero)
    && s.errs == SequentialErrors(cfg.fns)
  }

  /** What the stages after the loop know. */
  ghost predicate Ending<R>(cfg: Config<R>, s: State<R>) {
    && (s.ctx.Some? ==> IsContextError(s.ctx.value))
    && ((s.main.Waiting? || s.main.PastWait()) && s.main.Launched() < cfg.Size() ==> s.ctx.Some?)
    && (s.main.PastWait() ==> s.pending == 0)
    && (s.main.Checking? || s.main.Rescanning? ==> FirstMatch(s.errs, true).None?)
    && (s.main.Rescanning? ==> Faithful(cfg, s))
    && (s.main.Finished? ==> Verdict(cfg, s))
  }

  /** The three ways in which Map chooses its error. */
  ghost predicate Verdict<R>(cfg: Config<R>, s: State<R>)
    requires s.main.Finished?
  {
    var specific := FirstMatch(s.errs, true);
    if specific.Some? then s.main.err == specific
    else
      || (s.ctx.Some? && s.main.err == s.ctx)
      || (Faithful(cfg, s) && s.main.err == FirstMatch(s.errs, false))
  }

  ghost predicate Inv<R>(cfg: Config<R>, s: State<R>) {
    && WellFormed(cfg, s)
    && Accounting(cfg, s)
    && PrefixLaunched(cfg, s)
    && (forall i: nat :: i < cfg.Size() ==> Cell(cfg, s, i))
    && Ending(cfg, s)
  }

  lemma InitInv<R>(cfg: Config<R>)
    ensures Inv(cfg, Init(cfg))
  {
    var s := Init(cfg);
    assert Holders(s.workers) == {} && Live(s.workers) == {};
  }

  /** Changing one worker changes the two counts by at most that worker. */
  lemma UpdateWorker<R>(ws: seq<Worker<R>>, i: nat, w: Worker<R>)
    requires i < |ws|
    ensures |Holders(ws[i := w])| ==
            |Holders(ws)| - (if ws[i].HoldsToken() then 1 else 0) + (if w.HoldsToken() then 1 else 0)
    ensures |Live(ws[i := w])| ==
            |Live(ws)| - (if ws[i].IsCounted() then 1 else 0) + (if w.IsCounted() then 1 else 0)
  {
    var after := ws[i := w];
    assert Holders(after) - {i} == Holders(ws) - {i};
    assert Live(after) - {i} == Live(ws) - {i};
    SizeWithout(Holders(after), i);
    SizeWithout(Holders(ws), i);
    SizeWithout(Live(after), i);
    SizeWithout(Live(ws), i);
  }

  lemma SizeWithout(a: set<nat>, i: nat)
    ensures |a| == |a - {i}| + (if i in a then 1 else 0)
  {
    if i !in a {
      assert a - {i} == a;
    }
  }

  /** With the WaitGroup at zero every launched worker has exited. */
  lemma AllExited<R>(cfg: Config<R>, s: State<R>)
    requires Inv(cfg, s) && s.pending == 0
    ensures forall i :: 0 <= i < s.main.Launched() ==> s.workers[i].Exited?
  {
    forall i | 0 <= i < s.main.Launched() ensures s.workers[i].Exited? {
      assert i !in Live(s.workers);
    }
  }

  /** A live context after the wait means that every item went through fn. */
  lemma LiveContextIsFaithful<R>(cfg: Config<R>, s: State<R>)
    requires Inv(cfg, s) && s.main.PastWait() && s.ctx.None?
    ensures Faithful(cfg, s)
  {
    AllExited(cfg, s);
    forall i: nat | i < cfg.Size()
      ensures s.results[i] == ResultOf(cfg.fns[i], cfg.zero) && s.errs[i] == ErrorOf(cfg.fns[i])
    {
      assert Cell(cfg, s, i) && s.workers[i].Exited?;
    }
  }

  /** A cell that no step touched stays right, also across the cancellation. */
  lemma CellFrame<R>(cfg: Config<R>, s: State<R>, t: State<R>, i: nat)
    requires WellFormed(cfg, s) && WellFormed(cfg, t) && i < cfg.Size() && Cell(cfg, s, i)
    requires t.workers[i] == s.workers[i] && t.outcomes[i] == s.outcomes[i]
    requires t.results[i] == s.results[i] && t.errs[i] == s.errs[i]
    requires s.ctx == None || t.ctx == s.ctx
    ensures Cell(cfg, t, i)
  {
  }

  lemma CancelInv<R>(cfg: Config<R>, s: State<R>, cause: Error)
    requires Inv(cfg, s) && Enabled(cfg, s, Cancel(cause))
    ensures Inv(cfg, Next(cfg, s, Cancel(cause)))
  {
    var t := Next(cfg, s, Cancel(cause));
    forall i: nat | i < cfg.Size() ensures Cell(cfg, t, i) {
      CellFrame(cfg, s, t, i);
    }
  }

  lemma MainInv<R>(cfg: Config<R>, s: State<R>, takeDone: bool)
    requires Inv(cfg, s) && Enabled(cfg, s, MainStep(takeDone))
    ensures Inv(cfg, Next(cfg, s, MainStep(takeDone)))
  {
    MainAccounting(cfg, s, takeDone);
    MainCells(cfg, s, takeDone);
    if s.main.PastWait() {
      EndingScan(cfg, s, takeDone);
    } else {
      EndingLoop(cfg, s, takeDone);
    }
  }

  lemma MainAccounting<R>(cfg: Config<R>, s: State<R>, takeDone: bool)
    requires WellFormed(cfg, s) && Accounting(cfg, s) && PrefixLaunched(cfg, s)
    requires Enabled(cfg, s, MainStep(takeDone))
    ensures var t := MainNext(cfg, s, takeDone);
            WellFormed(cfg, t) && Accounting(cfg, t) && PrefixLaunched(cfg, t)
  {
    if s.main.Counted? {
      UpdateWorker(s.workers, s.main.i, Spawned);
    }
  }

  lemma MainCells<R>(cfg: Config<R>, s: State<R>, takeDone: bool)
    requires Inv(cfg, s) && Enabled(cfg, s, MainStep(takeDone))
    requires WellFormed(cfg, MainNext(cfg, s, takeDone))
    ensures forall i: nat :: i < cfg.Size() ==> Cell(cfg, MainNext(cfg, s, takeDone), i)
  {
    var t := MainNext(cfg, s, takeDone);
    forall i: nat | i < cfg.Size() ensures Cell(cfg, t, i) {
      if t.workers[i] == s.workers[i] {
        CellFrame(cfg, s, t, i);
      } else {
        assert Cell(cfg, s, i);
      }
    }
  }

  lemma EndingLoop<R>(cfg: Config<R>, s: State<R>, takeDone: bool)
    requires Inv(cfg, s) && Enabled(cfg, s, MainStep(takeDone)) && !s.main.PastWait()
    ensures Ending(cfg, MainNext(cfg, s, takeDone))
  {
  }

  lemma EndingScan<R>(cfg: Config<R>, s: State<R>, takeDone: bool)
    requires Inv(cfg, s) && Enabled(cfg, s, MainStep(takeDone)) && s.main.PastWait()
    ensures Ending(cfg, MainNext(cfg, s, takeDone))
  {
    if s.ctx.None? {
      LiveContextIsFaithful(cfg, s);
    }
  }

  lemma WorkerInv<R>(cfg: Config<R>, s: State<R>, i: nat, o: Outcome<R>)
    requires Inv(cfg, s) && Enabled(cfg, s, WorkerStep(i, o))
    ensures Inv(cfg, Next(cfg, s, WorkerStep(i, o)))
  {
    var t := Next(cfg, s, WorkerStep(i, o));
    assert i in Live(s.workers);
    assert Accounting(cfg, t) by {
      UpdateWorker(s.workers, i, t.workers[i]);
      assert t.workers == s.workers[i := t.workers[i]];
    }
    forall j: nat | j < cfg.Size() ensures Cell(cfg, t, j) {
      if j == i {
        WorkerCell(cfg, s, i, o);
      } else {
        CellFrame(cfg, s, t, j);
      }
    }
  }

  lemma WorkerCell<R>(cfg: Config<R>, s: State<R>, i: nat, o: Outcome<R>)
    requires WellFormed(cfg, s) && Enabled(cfg, s, WorkerStep(i, o)) && Cell(cfg, s, i)
    ensures WellFormed(cfg, Next(cfg, s, WorkerStep(i, o)))
    ensures Cell(cfg, Next(cfg, s, WorkerStep(i, o)), i)
  {
  }

  lemma StepInv<R>(cfg: Config<R>, s: State<R>, step: Step<R>)
    requires Inv(cfg, s) && Enabled(cfg, s, step)
    ensures Inv(cfg, Next(cfg, s, step))
  {
    match step
    case Cancel(cause) => CancelInv(cfg, s, cause);
    case MainStep(takeDone) => MainInv(cfg, s, takeDone);
    case WorkerStep(i, o) => WorkerInv(cfg, s, i, o);
  }

  lemma {:induction false} RunInv<R>(cfg: Config<R>, s: State<R>, steps: seq<Step<R>>, t: State<R>)
    requires Inv(cfg, s) && Run(cfg, s, steps, t)
    ensures Inv(cfg, t)
    decreases |steps|
  {
    if steps != [] {
      StepInv(cfg, s, steps[0]);
      RunInv(cfg, Next(cfg, s, steps[0]), steps[1..], t);
    }
  }

  /** A run can be extended at its end. */
  lemma {:induction false} RunSnoc<R>(cfg: Config<R>, s: State<R>, steps: seq<Step<R>>, t: State<R>, step: Step<R>)
    requires Run(cfg, s, steps, t) && Enabled(cfg, t, step)
    ensures Run(cfg, s, steps + [step], Next(cfg, t, step))
    decreases |steps|
  {
    if steps == [] {
      assert [step][1..] == [];
    } else {
      assert (steps + [step])[1..] == steps[1..] + [step];
      RunSnoc(cfg, Next(cfg, s, steps[0]), steps[1..], t, step);
    }
  }

  // ---------------------------------------------------------------------------------------------
  // Theorems
  // ---------------------------------------------------------------------------------------------

  /** In every reachable state the semaphore holds one token per worker that has one to give back,
      plus one while the loop is between acquire and spawn; it is never over capacity, and the
      WaitGroup counts the workers that have not called Done. */
  lemma SemaphoreAccounting<R>(cfg: Config<R>, steps: seq<Step<R>>, s: State<R>)
    requires Run(cfg, Init(cfg), steps, s)
    ensures |s.workers| == cfg.Size()
    ensures s.tokens == |set i: nat | i < |s.workers| && s.workers[i].HoldsToken()| +
                        (if s.main.Acquired? || s.main.Counted? then 1 else 0)
    ensures s.pending == |set i: nat | i < |s.workers| && s.workers[i].IsCounted()| +
                         (if s.main.Counted? then 1 else 0)
    ensures 0 <= s.tokens <= (if cfg.concurrency <= 0 then 1 else cfg.concurrency)
    // a release never blocks and Done never drives the counter below zero
    ensures forall i: nat :: i < cfg.Size() && s.workers[i].Unwinding? ==> s.tokens > 0
    ensures forall i: nat :: i < cfg.Size() && s.workers[i].Released? ==> s.pending > 0
  {
    InitInv(cfg);
    RunInv(cfg, Init(cfg), steps, s);
    forall i: nat | i < cfg.Size() && s.workers[i].Unwinding? ensures s.tokens > 0 {
      assert i in Holders(s.workers);
    }
    forall i: nat | i < cfg.Size() && s.workers[i].Released? ensures s.pending > 0 {
      assert i in Live(s.workers);
    }
  }

  /** At most `Capacity()` calls of fn are in progress at any time. */
  lemma BoundedConcurrency<R>(cfg: Config<R>, steps: seq<Step<R>>, s: State<R>)
    requires Run(cfg, Init(cfg), steps, s)
    ensures |set i: nat | i < |s.workers| && s.workers[i].Running?| <= cfg.Capacity()
  {
    SemaphoreAccounting(cfg, steps, s);
    var running := set i: nat | i < |s.workers| && s.workers[i].Running?;
    var holders := set i: nat | i < |s.workers| && s.workers[i].HoldsToken();
    SubsetSize(running, holders);
  }

  lemma SubsetSize<T>(a: set<T>, b: set<T>)
    requires a <= b
    ensures |a| <= |b|
  {
    assert b == a + (b - a);
  }

  /** After wg.Wait no worker can take a step, so nobody writes to the slices any more. */
  lemma NoWriteAfterWait<R>(cfg: Config<R>, steps: seq<Step<R>>, s: State<R>, more: seq<Step<R>>, t: State<R>)
    requires Run(cfg, Init(cfg), steps, s) && s.main.PastWait()
    requires Run(cfg, s, more, t)
    ensures t.main.PastWait() && t.results == s.results && t.errs == s.errs && t.workers == s.workers
  {
    InitInv(cfg);
    RunInv(cfg, Init(cfg), steps, s);
    QuietRun(cfg, s, more, t);
  }

  lemma {:induction false} QuietRun<R>(cfg: Config<R>, s: State<R>, steps: seq<Step<R>>, t: State<R>)
    requires Inv(cfg, s) && s.main.PastWait() && Run(cfg, s, steps, t)
    ensures t.main.PastWait() && t.results == s.results && t.errs == s.errs && t.workers == s.workers
    decreases |steps|
  {
    if steps != [] {
      AllExited(cfg, s);
      StepInv(cfg, s, steps[0]);
      QuietRun(cfg, Next(cfg, s, steps[0]), steps[1..], t);
    }
  }

  /** Deadlock freedom: as long as Map has not returned, some goroutine can take a step, without
      any help from a cancellation. */
  lemma Progress<R>(cfg: Config<R>, s: State<R>)
    requires Inv(cfg, s) && !s.main.Finished?
    ensures exists step: Step<R> :: !step.Cancel? && Enabled(cfg, s, step)
  {
    if s.main.Waiting? && s.pending > 0 {
      var i :| i in Live(s.workers);
      LiveWorkerCanStep(cfg, s, i);
    } else if s.main.AtSelect? && s.tokens >= cfg.Capacity() {
      var i :| i in Holders(s.workers);
      LiveWorkerCanStep(cfg, s, i);
    } else {
      var step: Step<R> := MainStep(false);
      assert Enabled(cfg, s, step);
    }
  }

  /** A worker is never stuck: its token release finds a token. */
  lemma LiveWorkerCanStep<R>(cfg: Config<R>, s: State<R>, i: nat)
    requires Inv(cfg, s) && i < cfg.Size() && s.workers[i].IsCounted()
    ensures Enabled(cfg, s, WorkerStep(i, cfg.fns[i]))
  {
    if s.workers[i].Unwinding? {
      assert i in Holders(s.workers);
    }
  }

  lemma NoDeadlock<R>(cfg: Config<R>, steps: seq<Step<R>>, s: State<R>)
    requires Run(cfg, Init(cfg), steps, s) && !s.main.Finished?
    ensures exists step: Step<R> :: !step.Cancel? && Enabled(cfg, s, step)
  {
    InitInv(cfg);
    RunInv(cfg, Init(cfg), steps, s);
    Progress(cfg, s);
  }

  /** Steps a worker still has to take. */
  function WorkerRank<R>(w: Worker<R>): nat {
    match w
    case Idle => 0
    case Spawned => 6
    case Running => 5
    case Returned(_, _) => 4
    case Stored(_) => 3
    case Recovering(_) => 3
    case Unwinding => 2
    case Released => 1
    case Exited => 0
  }

  function MainRank(size: nat, m: Main): nat
    requires m.Launched() <= size
  {
    match m
    case AtCheck(i) => 10 * (size - i) + 5
    case AtSelect(i) => 10 * (size - i) + 4
    case Acquired(i) => 10 * (size - i) + 3
    case Counted(i) => 10 * (size - i) + 2
    case Waiting(_) => 4
    case Scanning(_) => 3
    case Checking(_) => 2
    case Rescanning(_) => 1
    case Finished(_, _) => 0
  }

  function RankSum<R>(ws: seq<Worker<R>>): nat {
    if |ws| == 0 then 0 else RankSum(ws[..|ws| - 1]) + WorkerRank(ws[|ws| - 1])
  }

  function Measure<R>(cfg: Config<R>, s: State<R>): nat
    requires s.main.Launched() <= cfg.Size()
  {
    MainRank(cfg.Size(), s.main) + RankSum(s.workers) + (if s.ctx.None? then 1 else 0)
  }

  lemma {:induction false} RankSumUpdate<R>(ws: seq<Worker<R>>, i: nat, w: Worker<R>)
    requires i < |ws|
    ensures RankSum(ws[i := w]) == RankSum(ws) - WorkerRank(ws[i]) + WorkerRank(w)
  {
    var last := |ws| - 1;
    if i == last {
      assert ws[i := w][..last] == ws[..last];
    } else {
      assert ws[i := w][..last] == ws[..last][i := w];
      RankSumUpdate(ws[..last], i, w);
    }
  }

  lemma WorkerDecreases<R>(cfg: Config<R>, s: State<R>, i: nat, o: Outcome<R>)
    requires Enabled(cfg, s, WorkerStep(i, o))
    ensures Measure(cfg, WorkerNext(cfg, s, i, o)) < Measure(cfg, s)
  {
    var t := WorkerNext(cfg, s, i, o);
    WorkerFrame(cfg, s, i, o);
    RankSumUpdate(s.workers, i, t.workers[i]);
  }

  /** A worker moves one stage on and touches no other worker, nor the loop, nor the context. */
  lemma WorkerFrame<R>(cfg: Config<R>, s: State<R>, i: nat, o: Outcome<R>)
    requires Enabled(cfg, s, WorkerStep(i, o))
    ensures var t := WorkerNext(cfg, s, i, o);
            && t.workers == s.workers[i := t.workers[i]] && t.main == s.main && t.ctx == s.ctx
            && WorkerRank(t.workers[i]) < WorkerRank(s.workers[i])
  {
  }

  lemma MainDecreases<R>(cfg: Config<R>, s: State<R>, takeDone: bool)
    requires Enabled(cfg, s, MainStep(takeDone)) && PrefixLaunched(cfg, s)
    requires WellFormed(cfg, MainNext(cfg, s, takeDone))
    ensures Measure(cfg, MainNext(cfg, s, takeDone)) < Measure(cfg, s)
  {
    if s.main.Counted? {
      assert s.workers[s.main.i].Idle?;
      RankSumUpdate(s.workers, s.main.i, Spawned);
    }
  }

  /** Every step makes the measure smaller, whoever takes it. */
  lemma StepDecreases<R>(cfg: Config<R>, s: State<R>, step: Step<R>)
    requires Inv(cfg, s) && Enabled(cfg, s, step)
    ensures Inv(cfg, Next(cfg, s, step))
    ensures Measure(cfg, Next(cfg, s, step)) < Measure(cfg, s)
  {
    StepInv(cfg, s, step);
    match step
    case Cancel(_) =>
    case MainStep(takeDone) => MainDecreases(cfg, s, takeDone);
    case WorkerStep(i, o) => WorkerDecreases(cfg, s, i, o);
  }

  lemma {:induction false} RunLength<R>(cfg: Config<R>, s: State<R>, steps: seq<Step<R>>, t: State<R>)
    requires Inv(cfg, s) && Run(cfg, s, steps, t)
    ensures Inv(cfg, t)
    ensures |steps| + Measure(cfg, t) <= Measure(cfg, s)
    decreases |steps|
  {
    if steps != [] {
      StepDecreases(cfg, s, steps[0]);
      RunLength(cfg, Next(cfg, s, steps[0]), steps[1..], t);
    }
  }

  lemma {:induction false} IdleRankSum<R>(ws: seq<Worker<R>>)
    requires forall i :: 0 <= i < |ws| ==> ws[i].Idle?
    ensures RankSum(ws) == 0
  {
    if |ws| > 0 {
      IdleRankSum(ws[..|ws| - 1]);
    }
  }

  /** Termination: no schedule, fair or not, takes more than 10n + 6 steps; a run that cannot be
      extended without a cancellation has returned. */
  lemma Termination<R>(cfg: Config<R>, steps: seq<Step<R>>, s: State<R>)
    requires Run(cfg, Init(cfg), steps, s)
    ensures |steps| <= 10 * cfg.Size() + 6
    ensures (forall step: Step<R> :: !step.Cancel? ==> !Enabled(cfg, s, step)) ==> s.main.Finished?
  {
    InitInv(cfg);
    RunLength(cfg, Init(cfg), steps, s);
    IdleRankSum(Init(cfg).workers);
    if !s.main.Finished? {
      NoDeadlock(cfg, steps, s);
    }
  }

  /** The main theorem: when Map returns a nil error, whatever the schedule, every item was launched
      and finished, and the results are those of the sequential map, in input order. */
  lemma NilErrorMeansSequentialMap<R>(cfg: Config<R>, steps: seq<Step<R>>, t: State<R>)
    requires CompleteRun(cfg, steps, t) && t.main.err.None?
    ensures t.main.launched == cfg.Size() == |t.workers|
    ensures forall i :: 0 <= i < cfg.Size() ==> t.workers[i].Exited?
    ensures t.results == SequentialResults(cfg.fns, cfg.zero)
    ensures forall i :: 0 <= i < cfg.Size() ==> cfg.fns[i].Returns? && cfg.fns[i].err.None?
  {
    InitInv(cfg);
    RunInv(cfg, Init(cfg), steps, t);
    AllExited(cfg, t);
    assert Faithful(cfg, t) && FirstMatch(t.errs, false).None?;
    forall i | 0 <= i < cfg.Size() ensures cfg.fns[i].Returns? && cfg.fns[i].err.None? {
      assert t.errs[i] == ErrorOf(cfg.fns[i]) && !Matches(false, t.errs[i]);
    }
  }

  lemma {:induction false} UncancelledStaysLive<R>(cfg: Config<R>, s: State<R>, steps: seq<Step<R>>, t: State<R>)
    requires Run(cfg, s, steps, t) && Uncancelled(steps) && s.ctx.None?
    ensures t.ctx.None?
    decreases |steps|
  {
    if steps != [] {
      var s' := Next(cfg, s, steps[0]);
      assert !steps[0].Cancel?;
      UncancelledStaysLive(cfg, s', steps[1..], t);
    }
  }

  /** Without a cancellation every schedule returns what the sequential map returns: its results,
      and its first specific error or else its first context-valued one. */
  lemma UncancelledRefinesSequentialMap<R>(cfg: Config<R>, steps: seq<Step<R>>, t: State<R>)
    requires CompleteRun(cfg, steps, t) && Uncancelled(steps)
    ensures t.results == SequentialResults(cfg.fns, cfg.zero)
    ensures t.main.err == SequentialError(cfg.fns)
  {
    InitInv(cfg);
    RunInv(cfg, Init(cfg), steps, t);
    UncancelledStaysLive(cfg, Init(cfg), steps, t);
    LiveContextIsFaithful(cfg, t);
  }

  /** Schedule independence. */
  lemma ScheduleIndependence<R>(cfg: Config<R>, steps1: seq<Step<R>>, t1: State<R>, steps2: seq<Step<R>>, t2: State<R>)
    requires CompleteRun(cfg, steps1, t1) && Uncancelled(steps1)
    requires CompleteRun(cfg, steps2, t2) && Uncancelled(steps2)
    ensures t1.results == t2.results && t1.main.err == t2.main.err
  {
    UncancelledRefinesSequentialMap(cfg, steps1, t1);
    UncancelledRefinesSequentialMap(cfg, steps2, t2);
  }

  /** Cancellation: the launched items are a prefix, the others are untouched, every launched item
      holds the outcome of its own call or the context error, an early exit of the loop is always
      reported, and a panic or a specific error outranks the context error. After an early exit Map
      returns the error of the context itself if and only if no item left a specific one; without a
      specific error it returns either that or what the sequential map returns. */
  lemma CancelledRun<R>(cfg: Config<R>, steps: seq<Step<R>>, t: State<R>)
    requires CompleteRun(cfg, steps, t)
    ensures |t.results| == |t.errs| == |t.outcomes| == cfg.Size()
    ensures t.main.launched <= cfg.Size()
    ensures forall i :: t.main.launched <= i < cfg.Size() ==>
              t.outcomes[i].None? && t.results[i] == cfg.zero && t.errs[i].None?
    ensures forall i :: 0 <= i < t.main.launched ==>
              if t.outcomes[i].Some? then
                && t.results[i] == ResultOf(t.outcomes[i].value, cfg.zero)
                && t.errs[i] == ErrorOf(t.outcomes[i].value)
              else t.ctx.Some? && t.results[i] == cfg.zero && t.errs[i] == t.ctx
    ensures t.main.launched < cfg.Size() ==> t.ctx.Some? && t.main.err.Some?
    ensures FirstMatch(t.errs, true).Some? ==> t.main.err == FirstMatch(t.errs, true)
    ensures FirstMatch(t.errs, true).None? && t.main.err.Some? ==> IsContextError(t.main.err.value)
    ensures FirstMatch(t.errs, true).None? ==>
              || (t.ctx.Some? && t.main.err == t.ctx)
              || (t.results == SequentialResults(cfg.fns, cfg.zero) && t.main.err == SequentialError(cfg.fns))
    ensures t.main.launched < cfg.Size() ==> (t.main.err == t.ctx <==> FirstMatch(t.errs, true).None?)
    ensures (exists i :: 0 <= i < cfg.Size() && t.outcomes[i].Some? && t.outcomes[i].value.Panics?) ==>
              t.main.err.Some? && !IsContextError(t.main.err.value)
  {
    InitInv(cfg);
    RunInv(cfg, Init(cfg), steps, t);
    AllExited(cfg, t);
    forall i: nat | i < cfg.Size()
      ensures i < t.main.launched ==> Recorded(cfg, t, i)
      ensures t.main.launched <= i ==> t.outcomes[i].None? && t.results[i] == cfg.zero && t.errs[i].None?
    {
      assert Cell(cfg, t, i);
      assert t.workers[i].Idle? <==> t.main.launched <= i;
    }
    if i :| 0 <= i < cfg.Size() && t.outcomes[i].Some? && t.outcomes[i].value.Panics? {
      assert Matches(true, t.errs[i]);
    }
  }

  /** What fn did on an item is recorded once. */
  lemma {:induction false} OutcomeIsFinal<R>(cfg: Config<R>, s: State<R>, steps: seq<Step<R>>, t: State<R>, i: nat)
    requires Inv(cfg, s) && Run(cfg, s, steps, t) && i < cfg.Size() && s.outcomes[i].Some?
    ensures |t.outcomes| == cfg.Size() && t.outcomes[i] == s.outcomes[i]
    decreases |steps|
  {
    if steps != [] {
      StepInv(cfg, s, steps[0]);
      assert Cell(cfg, s, i);
      OutcomeIsFinal(cfg, Next(cfg, s, steps[0]), steps[1..], t, i);
    }
  }

  /** A call that ended before the cancellation keeps its outcome: whatever happens afterwards, its cells
      are those of the sequential map. */
  lemma EndedBeforeCancellation<R>(cfg: Config<R>, before: seq<Step<R>>, s: State<R>, after: seq<Step<R>>, t: State<R>, i: nat)
    requires Run(cfg, Init(cfg), before, s) && s.ctx.None?
    requires Run(cfg, s, after, t) && t.main.Finished?
    requires i < cfg.Size() == |s.outcomes| && s.outcomes[i].Some?
    ensures |t.results| == |t.errs| == cfg.Size()
    ensures t.results[i] == ResultOf(cfg.fns[i], cfg.zero) && t.errs[i] == ErrorOf(cfg.fns[i])
  {
    InitInv(cfg);
    RunInv(cfg, Init(cfg), before, s);
    RunInv(cfg, s, after, t);
    OutcomeIsFinal(cfg, s, after, t, i);
    AllExited(cfg, t);
    assert Cell(cfg, s, i) && Cell(cfg, t, i);
  }

  /** However a call of fn ends, before or after a cancellation, that is what Map records for its item:
      the value and the error it returned, or the recovered panic and no value. */
  lemma CallIsRecorded<R>(cfg: Config<R>, before: seq<Step<R>>, s: State<R>, i: nat, o: Outcome<R>,
                          after: seq<Step<R>>, t: State<R>)
    requires Run(cfg, Init(cfg), before, s) && Enabled(cfg, s, WorkerStep(i, o)) && s.workers[i].Running?
    requires Run(cfg, Next(cfg, s, WorkerStep(i, o)), after, t) && t.main.Finished?
    ensures i < t.main.launched && |t.results| == |t.errs| == |t.outcomes| == cfg.Size()
    ensures t.outcomes[i] == Some(o)
    ensures o.Returns? ==> t.results[i] == o.value && t.errs[i] == o.err
    ensures o.Panics? ==> t.results[i] == cfg.zero && t.errs[i] == Some(Panicked(o.payload))
  {
    var s' := Next(cfg, s, WorkerStep(i, o));
    InitInv(cfg);
    RunInv(cfg, Init(cfg), before, s);
    StepInv(cfg, s, WorkerStep(i, o));
    RunInv(cfg, s', after, t);
    OutcomeIsFinal(cfg, s', after, t, i);
    AllExited(cfg, t);
    assert Cell(cfg, t, i);
  }

  /** Failures and panics outrank cancellations and deadlines alike, in every complete run: if any item
      left one, Map returns the one with the lowest index; and it returns Canceled or
      DeadlineExceeded only if no item left anything else. Either may be the cause of a cancellation. */
  lemma FailuresOutrankContext<R>(cfg: Config<R>, steps: seq<Step<R>>, t: State<R>, i: nat)
    requires CompleteRun(cfg, steps, t)
    requires i < |t.errs| && t.errs[i].Some? && (t.errs[i].value.Failed? || t.errs[i].value.Panicked?)
    requires forall j :: 0 <= j < i && t.errs[j].Some? ==> t.errs[j].value.Canceled? || t.errs[j].value.DeadlineExceeded?
    ensures t.main.err == t.errs[i]
  {
    CancelledRun(cfg, steps, t);
    assert Matches(true, t.errs[i]);
    var k :| 0 <= k < |t.errs| && t.errs[k] == FirstMatch(t.errs, true) && Matches(true, t.errs[k]) &&
             forall j :: 0 <= j < k ==> !Matches(true, t.errs[j]);
    assert k == i;
  }

  lemma AnyCauseCancels<R>(cfg: Config<R>, steps: seq<Step<R>>, s: State<R>)
    requires Run(cfg, Init(cfg), steps, s) && s.ctx.None?
    ensures Enabled(cfg, s, Cancel(Canceled)) && Next(cfg, s, Cancel(Canceled)).ctx == Some(Canceled)
    ensures Enabled(cfg, s, Cancel(DeadlineExceeded)) && Next(cfg, s, Cancel(DeadlineExceeded)).ctx == Some(DeadlineExceeded)
  {
    InitInv(cfg);
    RunInv(cfg, Init(cfg), steps, s);
  }

  /** The select of the loop: with a cancelled context it can always give up, even if the semaphore is full,
      and then it holds no token and launches nothing more; it can take a token exactly while fewer
      than max(1, concurrency) are out. */
  lemma SelectOffers<R>(cfg: Config<R>, steps: seq<Step<R>>, s: State<R>)
    requires Run(cfg, Init(cfg), steps, s) && s.main.AtSelect?
    ensures Enabled(cfg, s, MainStep(true)) <==> s.ctx.Some?
    ensures s.ctx.Some? ==> Next(cfg, s, MainStep(true)) == s.(main := Waiting(s.main.i))
    ensures Enabled(cfg, s, MainStep(false)) <==> s.tokens < (if cfg.concurrency <= 0 then 1 else cfg.concurrency)
  {
    InitInv(cfg);
    RunInv(cfg, Init(cfg), steps, s);
  }

  /** The items that may still be launched once the context is cancelled: the loop may be past its
      check for one of them. */
  function LaunchBound(m: Main): nat {
    m.Launched() + (if m.AtSelect? || m.Acquired? || m.Counted? then 1 else 0)
  }

  lemma CancelledStep<R>(cfg: Config<R>, s: State<R>, step: Step<R>, i: nat)
    requires s.ctx.Some? && Enabled(cfg, s, step) && i < cfg.Size()
    ensures var t := Next(cfg, s, step);
            && t.ctx == s.ctx && LaunchBound(t.main) <= LaunchBound(s.main) && |t.workers| == |s.workers|
            && (!s.workers[i].Running? ==> !t.workers[i].Running? && t.outcomes[i] == s.outcomes[i])
  {
  }

  /** A cancellation halts the processing: from then on at most one more worker is launched, and no
      call of fn begins; the only calls that still end are those already in progress. */
  lemma {:induction false} CancellationHalts<R>(cfg: Config<R>, s: State<R>, steps: seq<Step<R>>, t: State<R>, i: nat)
    requires WellFormed(cfg, s) && s.ctx.Some? && Run(cfg, s, steps, t) && i < cfg.Size()
    ensures WellFormed(cfg, t) && t.main.Launched() <= LaunchBound(s.main) <= s.main.Launched() + 1
    ensures !s.workers[i].Running? ==> !t.workers[i].Running? && t.outcomes[i] == s.outcomes[i]
    decreases |steps|
  {
    if steps != [] {
      CancelledStep(cfg, s, steps[0], i);
      var s' := Next(cfg, s, steps[0]);
      LaunchedWithinBound(cfg, s, steps[0]);
      CancellationHalts(cfg, s', steps[1..], t, i);
    }
  }

  lemma LaunchedWithinBound<R>(cfg: Config<R>, s: State<R>, step: Step<R>)
    requires Enabled(cfg, s, step)
    ensures WellFormed(cfg, Next(cfg, s, step))
  {
  }
}
