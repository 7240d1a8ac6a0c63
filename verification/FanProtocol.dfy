/** `async.Fan` and `async.Group` as one step system: one goroutine per item, every error or panic
    appended to a mutex-guarded slice. A Group is a Fan that has no context to check. */
module FanProtocol {
  import opened Wrappers

  /** How one call of the user's fn ends. */
  datatype Ending = Clean | WithError(err: Error) | WithPanic(payload: int) {
    /** What it appends to the error slice. */
    function Entry(): seq<Error> {
      match this
      case Clean => []
      case WithError(e) => [e]
      case WithPanic(p) => [Panicked(p)]
    }
  }

  /** `watchesContext` tells Fan from Group, whose caller launches `size` functions and waits. */
  datatype Config = Config(size: nat, watchesContext: bool)

  datatype Main =
    | AtCheck(i: nat)                                     // top of the loop
    | Reporting(i: nat)                                   // ctx seen cancelled, before the append
    | Launching(i: nat)                                   // before wg.Add
    | Counted(i: nat)                                     // before the go statement
    | Waiting(launched: nat)
    | Finished(launched: nat)
  {
    function Launched(): nat {
      if Waiting? || Finished? then launched else i
    }
  }

  datatype Worker =
    | Idle
    | Running
    | Failing(end: Ending)                                // before the locked append
    | Leaving(end: Ending)                                // before wg.Done
    | Exited(end: Ending)
  {
    predicate IsCounted() { !Idle? && !Exited? }

    /** How often the worker has appended e. */
    function Posted(e: Error): nat {
      if (Leaving? || Exited?) && end.Entry() == [e] then 1 else 0
    }
  }

  datatype State = State(main: Main, workers: seq<Worker>, pending: int, ctx: Option<Error>, errs: seq<Error>)

  datatype Step = Cancel(cause: Error) | MainStep | WorkerStep(idx: nat, end: Ending)

  function Init(cfg: Config): State {
    State(AtCheck(0), seq(cfg.size, _ => Idle), 0, None, [])
  }

  predicate WellFormed(cfg: Config, s: State) {
    && |s.workers| == cfg.size
    && s.main.Launched() <= cfg.size
    && (s.main.Launching? || s.main.Counted? || s.main.Reporting? ==> s.main.i < cfg.size)
    && (s.main.Reporting? ==> s.ctx.Some?)
  }

  predicate Enabled(cfg: Config, s: State, step: Step) {
    && WellFormed(cfg, s)
    && match step
       case Cancel(cause) => s.ctx.None? && IsContextError(cause)
       case MainStep => if s.main.Waiting? then s.pending == 0 else !s.main.Finished?
       case WorkerStep(i, end) =>
         i < cfg.size && s.workers[i].IsCounted()
  }

  function Next(cfg: Config, s: State, step: Step): State
    requires Enabled(cfg, s, step)
  {
    match step
    case Cancel(cause) => s.(ctx := Some(cause))
    case MainStep => MainNext(cfg, s)
    case WorkerStep(i, end) => WorkerNext(s, i, end)
  }

  function MainNext(cfg: Config, s: State): State
    requires Enabled(cfg, s, MainStep)
  {
    match s.main
    case AtCheck(i) =>
      if i == cfg.size then s.(main := Waiting(i))
      else if cfg.watchesContext && s.ctx.Some? then s.(main := Reporting(i))
      else s.(main := Launching(i))
    case Reporting(i) => s.(main := Waiting(i), errs := s.errs + [s.ctx.value])
    case Launching(i) => s.(main := Counted(i), pending := s.pending + 1)
    case Counted(i) => s.(main := AtCheck(i + 1), workers := s.workers[i := Running])
    case Waiting(k) => s.(main := Finished(k))
  }

  function WorkerNext(s: State, i: nat, end: Ending): State
    requires i < |s.workers| && s.workers[i].IsCounted()
  {
    match s.workers[i]
    case Running => s.(workers := s.workers[i := if end.Clean? then Leaving(end) else Failing(end)])
    case Failing(e) =>
      s.(workers := s.workers[i := Leaving(e)], errs := s.errs + e.Entry())
    case Leaving(e) => s.(workers := s.workers[i := Exited(e)], pending := s.pending - 1)
  }

  ghost predicate Run(cfg: Config, s: State, steps: seq<Step>, t: State)
    decreases |steps|
  {
    if steps == [] then s == t
    else Enabled(cfg, s, steps[0]) && Run(cfg, Next(cfg, s, steps[0]), steps[1..], t)
  }

  /** The bag of everything the functions reported, in no order. */
  ghost function Bag(ends: seq<Ending>): multiset<Error> {
    if |ends| == 0 then multiset{} else Bag(ends[..|ends| - 1]) + multiset(ends[|ends| - 1].Entry())
  }

  // ---------------------------------------------------------------------------------------------
  // Invariant
  // ---------------------------------------------------------------------------------------------

  ghost function Live(ws: seq<Worker>): set<nat> {
    set i: nat | i < |ws| && ws[i].IsCounted()
  }

  /** How often the workers have appended e so far. */
  ghost function PostedBy(ws: seq<Worker>, e: Error): nat {
    if |ws| == 0 then 0 else PostedBy(ws[..|ws| - 1], e) + ws[|ws| - 1].Posted(e)
  }

  ghost predicate Broke(cfg: Config, s: State) {
    (s.main.Waiting? || s.main.Finished?) && s.main.launched < cfg.size
  }

  /** Every error is in the slice as often as it was appended. */
  ghost predicate Conserved(cfg: Config, s: State, e: Error) {
    multiset(s.errs)[e] == PostedBy(s.workers, e) + (if Broke(cfg, s) && s.ctx == Some(e) then 1 else 0)
  }

  ghost predicate Inv(cfg: Config, s: State) {
    && Bookkeeping(cfg, s)
    && forall e :: Conserved(cfg, s, e)
  }

  ghost predicate Bookkeeping(cfg: Config, s: State) {
    && WellFormed(cfg, s)
    && s.pending == |Live(s.workers)| + (if s.main.Counted? then 1 else 0)
    && (forall i :: 0 <= i < cfg.size ==> (s.workers[i].Idle? <==> s.main.Launched() <= i))
    && (Broke(cfg, s) || s.main.Reporting? ==> cfg.watchesContext && s.ctx.Some?)
    && (s.main.Finished? ==> s.pending == 0)
  }

  lemma InitInv(cfg: Config)
    ensures Inv(cfg, Init(cfg))
  {
    assert Live(Init(cfg).workers) == {};
    forall e ensures Conserved(cfg, Init(cfg), e) {
      NothingPosted(Init(cfg).workers, e);
    }
  }

  lemma {:induction false} NothingPosted(ws: seq<Worker>, e: Error)
    requires forall i :: 0 <= i < |ws| ==> ws[i].Idle?
    ensures PostedBy(ws, e) == 0
  {
    if |ws| > 0 {
      NothingPosted(ws[..|ws| - 1], e);
    }
  }

  lemma {:induction false} PostedUpdate(ws: seq<Worker>, i: nat, w: Worker, e: Error)
    requires i < |ws|
    ensures PostedBy(ws[i := w], e) == PostedBy(ws, e) - ws[i].Posted(e) + w.Posted(e)
  {
    var last := |ws| - 1;
    if i == last {
      assert ws[i := w][..last] == ws[..last];
    } else {
      assert ws[i := w][..last] == ws[..last][i := w];
      PostedUpdate(ws[..last], i, w, e);
    }
  }

  lemma LiveUpdate(ws: seq<Worker>, i: nat, w: Worker)
    requires i < |ws|
    ensures |Live(ws[i := w])| ==
            |Live(ws)| - (if ws[i].IsCounted() then 1 else 0) + (if w.IsCounted() then 1 else 0)
  {
    var before, after := Live(ws), Live(ws[i := w]);
    assert after - {i} == before - {i};
    if i !in before { assert before - {i} == before; }
    if i !in after { assert after - {i} == after; }
  }

  lemma StepBookkeeping(cfg: Config, s: State, step: Step)
    requires Bookkeeping(cfg, s) && Enabled(cfg, s, step)
    ensures Bookkeeping(cfg, Next(cfg, s, step))
  {
    var t := Next(cfg, s, step);
    if step.WorkerStep? {
      assert step.idx in Live(s.workers);
      assert t.workers == s.workers[step.idx := t.workers[step.idx]];
      LiveUpdate(s.workers, step.idx, t.workers[step.idx]);
    } else if step.MainStep? && s.main.Counted? {
      LiveUpdate(s.workers, s.main.i, Running);
    }
  }

  lemma MainConserved(cfg: Config, s: State, e: Error)
    requires Bookkeeping(cfg, s) && Enabled(cfg, s, MainStep) && Conserved(cfg, s, e)
    ensures Conserved(cfg, MainNext(cfg, s), e)
  {
    if s.main.Reporting? {
      ReportConserved(cfg, s, e);
    } else if s.main.Counted? {
      PostedUpdate(s.workers, s.main.i, Running, e);
    }
  }

  lemma ReportConserved(cfg: Config, s: State, e: Error)
    requires Enabled(cfg, s, MainStep) && s.main.Reporting? && Conserved(cfg, s, e)
    ensures Conserved(cfg, MainNext(cfg, s), e)
  {
    assert !Broke(cfg, s) && Broke(cfg, MainNext(cfg, s));
    assert multiset(s.errs + [s.ctx.value]) == multiset(s.errs) + multiset{s.ctx.value};
  }

  lemma WorkerConserved(cfg: Config, s: State, i: nat, end: Ending, e: Error)
    requires Bookkeeping(cfg, s) && Enabled(cfg, s, WorkerStep(i, end)) && Conserved(cfg, s, e)
    ensures Conserved(cfg, WorkerNext(s, i, end), e)
  {
    var t := WorkerNext(s, i, end);
    WorkerAppends(s, i, end, e);
    PostedUpdate(s.workers, i, t.workers[i], e);
  }

  /** A worker appends to the slice what it then counts as posted. */
  lemma WorkerAppends(s: State, i: nat, end: Ending, e: Error)
    requires i < |s.workers| && s.workers[i].IsCounted()
    ensures var t := WorkerNext(s, i, end);
            && t.main == s.main && t.ctx == s.ctx
            && t.workers == s.workers[i := t.workers[i]]
            && multiset(t.errs)[e] == multiset(s.errs)[e] + t.workers[i].Posted(e) - s.workers[i].Posted(e)
  {
    if s.workers[i].Failing? {
      AppendCount(s.errs, s.workers[i].end, e);
    }
  }

  lemma AppendCount(errs: seq<Error>, end: Ending, e: Error)
    ensures multiset(errs + end.Entry())[e] == multiset(errs)[e] + (if end.Entry() == [e] then 1 else 0)
  {
    assert multiset(errs + end.Entry()) == multiset(errs) + multiset(end.Entry());
  }

  lemma StepConserved(cfg: Config, s: State, step: Step, e: Error)
    requires Bookkeeping(cfg, s) && Enabled(cfg, s, step) && Conserved(cfg, s, e)
    ensures Conserved(cfg, Next(cfg, s, step), e)
  {
    match step
    case Cancel(_) =>
    case MainStep => MainConserved(cfg, s, e);
    case WorkerStep(i, end) => WorkerConserved(cfg, s, i, end, e);
  }

  lemma StepInv(cfg: Config, s: State, step: Step)
    requires Inv(cfg, s) && Enabled(cfg, s, step)
    ensures Inv(cfg, Next(cfg, s, step))
  {
    StepBookkeeping(cfg, s, step);
    forall e ensures Conserved(cfg, Next(cfg, s, step), e) {
      StepConserved(cfg, s, step, e);
    }
  }

  lemma {:induction false} RunInv(cfg: Config, s: State, steps: seq<Step>, t: State)
    requires Inv(cfg, s) && Run(cfg, s, steps, t)
    ensures Inv(cfg, t)
    decreases |steps|
  {
    if steps != [] {
      StepInv(cfg, s, steps[0]);
      RunInv(cfg, Next(cfg, s, steps[0]), steps[1..], t);
    }
  }

  /** A run can be extended at its end. */
  lemma {:induction false} RunSnoc(cfg: Config, s: State, steps: seq<Step>, t: State, step: Step)
    requires Run(cfg, s, steps, t) && Enabled(cfg, t, step)
    ensures Run(cfg, s, steps + [step], Next(cfg, t, step))
    decreases |steps|
  {
    if steps == [] {
      assert [step][1..] == [];
    } else {
      assert (steps + [step])[1..] == steps[1..] + [step];
      RunSnoc(cfg, Next(cfg, s, steps[0]), steps[1..], t, step);
    }
  }

  // ---------------------------------------------------------------------------------------------
  // Theorems
  // ---------------------------------------------------------------------------------------------

  /** Idle workers posted nothing, exited ones their ending. */
  lemma {:induction false} PostedIsBag(ws: seq<Worker>, ends: seq<Ending>, e: Error)
    requires |ends| <= |ws|
    requires forall i :: 0 <= i < |ws| ==> ws[i] == if i < |ends| then Exited(ends[i]) else Idle
    ensures PostedBy(ws, e) == Bag(ends)[e]
  {
    if |ws| == |ends| > 0 {
      var last := ends[|ends| - 1];
      PostedIsBag(ws[..|ws| - 1], ends[..|ends| - 1], e);
      assert multiset(last.Entry())[e] == ws[|ws| - 1].Posted(e);
    } else if |ws| > 0 {
      PostedIsBag(ws[..|ws| - 1], ends, e);
    }
  }

  /** What every goroutine ended with, once it has exited. */
  ghost function Endings(s: State): seq<Ending>
    requires s.main.Launched() <= |s.workers|
    requires forall i :: 0 <= i < s.main.Launched() ==> s.workers[i].Exited?
  {
    seq(s.main.Launched(), i requires 0 <= i < s.main.Launched() => s.workers[i].end)
  }

  /** Error conservation: in every interleaving the slice that Fan (or Group.Wait) returns is, as a
      bag, exactly the errors and panics of the launched prefix, plus one context error if and only
      if the loop broke early. Nothing is lost, duplicated or invented. */
  lemma ErrorConservation(cfg: Config, steps: seq<Step>, t: State)
    requires Run(cfg, Init(cfg), steps, t) && t.main.Finished?
    ensures t.main.launched <= cfg.size == |t.workers|
    ensures forall i :: 0 <= i < t.main.launched ==> t.workers[i].Exited?
    ensures t.main.launched < cfg.size ==> cfg.watchesContext && t.ctx.Some?
    ensures multiset(t.errs) ==
            Bag(Endings(t)) + (if t.main.launched < cfg.size then multiset{t.ctx.value} else multiset{})
  {
    InitInv(cfg);
    RunInv(cfg, Init(cfg), steps, t);
    forall i | 0 <= i < t.main.launched ensures t.workers[i].Exited? {
      assert i !in Live(t.workers);
    }
    var expected := Bag(Endings(t)) + (if t.main.launched < cfg.size then multiset{t.ctx.value} else multiset{});
    forall e ensures multiset(t.errs)[e] == expected[e] {
      assert Conserved(cfg, t, e);
      PostedIsBag(t.workers, Endings(t), e);
    }
    assert multiset(t.errs) == expected;
  }

  /** A Group launches everything, and Wait returns the nil slice exactly when no function failed. */
  lemma GroupWaitNil(cfg: Config, steps: seq<Step>, t: State)
    requires Run(cfg, Init(cfg), steps, t) && t.main.Finished? && !cfg.watchesContext
    ensures t.main.launched == cfg.size == |t.workers|
    ensures t.errs == [] <==> forall i :: 0 <= i < cfg.size ==> t.workers[i] == Exited(Clean)
  {
    ErrorConservation(cfg, steps, t);
    BagEmpty(Endings(t));
    assert |multiset(t.errs)| == |t.errs|;
    if t.errs == [] {
      forall i | 0 <= i < cfg.size ensures t.workers[i] == Exited(Clean) {
        assert Endings(t)[i].Clean?;
      }
    }
  }

  lemma {:induction false} BagEmpty(ends: seq<Ending>)
    ensures Bag(ends) == multiset{} <==> forall i :: 0 <= i < |ends| ==> ends[i].Clean?
  {
    if |ends| > 0 {
      var last := ends[|ends| - 1];
      BagEmpty(ends[..|ends| - 1]);
      if !last.Clean? {
        assert last.Entry()[0] in Bag(ends);
      }
    }
  }

  /** Steps still to come. */
  function Rank(w: Worker): nat {
    match w
    case Idle => 0
    case Running => 3
    case Failing(_) => 2
    case Leaving(_) => 1
    case Exited(_) => 0
  }

  function RankSum(ws: seq<Worker>): nat {
    if |ws| == 0 then 0 else RankSum(ws[..|ws| - 1]) + Rank(ws[|ws| - 1])
  }

  function Measure(cfg: Config, s: State): nat
    requires s.main.Launched() <= cfg.size
  {
    var main := match s.main
      case AtCheck(i) => 6 * (cfg.size - i) + 3
      case Reporting(i) => 2
      case Launching(i) => 6 * (cfg.size - i) + 2
      case Counted(i) => 6 * (cfg.size - i) + 1
      case Waiting(_) => 1
      case Finished(_) => 0;
    main + RankSum(s.workers) + (if s.ctx.None? then 1 else 0)
  }

  lemma {:induction false} RankSumUpdate(ws: seq<Worker>, i: nat, w: Worker)
    requires i < |ws|
    ensures RankSum(ws[i := w]) == RankSum(ws) - Rank(ws[i]) + Rank(w)
  {
    var last := |ws| - 1;
    if i == last {
      assert ws[i := w][..last] == ws[..last];
    } else {
      assert ws[i := w][..last] == ws[..last][i := w];
      RankSumUpdate(ws[..last], i, w);
    }
  }

  lemma WorkerDecreases(cfg: Config, s: State, i: nat, end: Ending)
    requires Enabled(cfg, s, WorkerStep(i, end))
    ensures Measure(cfg, WorkerNext(s, i, end)) < Measure(cfg, s)
  {
    var t := WorkerNext(s, i, end);
    assert t.workers == s.workers[i := t.workers[i]];
    RankSumUpdate(s.workers, i, t.workers[i]);
  }

  lemma MainDecreases(cfg: Config, s: State)
    requires Bookkeeping(cfg, s) && Enabled(cfg, s, MainStep)
    ensures WellFormed(cfg, MainNext(cfg, s))
    ensures Measure(cfg, MainNext(cfg, s)) < Measure(cfg, s)
  {
    if s.main.Counted? {
      assert s.workers[s.main.i].Idle?;
      RankSumUpdate(s.workers, s.main.i, Running);
    }
  }

  lemma StepDecreases(cfg: Config, s: State, step: Step)
    requires Inv(cfg, s) && Enabled(cfg, s, step)
    ensures Inv(cfg, Next(cfg, s, step))
    ensures Measure(cfg, Next(cfg, s, step)) < Measure(cfg, s)
  {
    StepInv(cfg, s, step);
    match step
    case Cancel(_) =>
    case MainStep => MainDecreases(cfg, s);
    case WorkerStep(i, end) => WorkerDecreases(cfg, s, i, end);
  }

  /** As long as the caller waits, some goroutine can take a step. */
  lemma Progress(cfg: Config, s: State)
    requires Inv(cfg, s) && !s.main.Finished?
    ensures exists step: Step :: !step.Cancel? && Enabled(cfg, s, step)
  {
    if s.main.Waiting? && s.pending != 0 {
      var i :| i in Live(s.workers);
      assert Enabled(cfg, s, WorkerStep(i, Clean));
    } else {
      assert Enabled(cfg, s, MainStep);
    }
  }
}
