/** `circuitbreaker.Breaker` with overlapping calls. Admission and completion are two separate locked
    sections with fn running unlocked in between, so a call admitted in one phase may report its
    verdict in a later one. */
module BreakerProtocol {
  import opened Wrappers

  datatype Phase = Closed | Open | HalfOpen

  datatype Config = Config(failureThreshold: int, successThreshold: int, timeout: int, maxHalfOpen: int)

  /** Nanoseconds. */
  const DEFAULT_TIMEOUT := 30_000_000_000

  /** What DefaultConfig returns. */
  const DefaultConfig := Config(5, 2, 30_000_000_000, 1)

  /** New replaces every non-positive field by its default. */
  function Sanitized(cfg: Config): (r: Config)
    ensures Sane(r)
    // a positive field is kept, whatever the others are
    ensures cfg.failureThreshold > 0 ==> r.failureThreshold == cfg.failureThreshold
    ensures cfg.successThreshold > 0 ==> r.successThreshold == cfg.successThreshold
    ensures cfg.timeout > 0 ==> r.timeout == cfg.timeout
    ensures cfg.maxHalfOpen > 0 ==> r.maxHalfOpen == cfg.maxHalfOpen
    // the others get the value they have in DefaultConfig
    ensures cfg.failureThreshold <= 0 ==> r.failureThreshold == DefaultConfig.failureThreshold
    ensures cfg.successThreshold <= 0 ==> r.successThreshold == DefaultConfig.successThreshold
    ensures cfg.timeout <= 0 ==> r.timeout == DefaultConfig.timeout
    ensures cfg.maxHalfOpen <= 0 ==> r.maxHalfOpen == DefaultConfig.maxHalfOpen
  {
    Config(if cfg.failureThreshold <= 0 then 5 else cfg.failureThreshold,
           if cfg.successThreshold <= 0 then 2 else cfg.successThreshold,
           if cfg.timeout <= 0 then DEFAULT_TIMEOUT else cfg.timeout,
           if cfg.maxHalfOpen <= 0 then 1 else cfg.maxHalfOpen)
  }

  predicate Sane(cfg: Config) {
    cfg.failureThreshold > 0 && cfg.successThreshold > 0 && cfg.timeout > 0 && cfg.maxHalfOpen > 0
  }

  /** The fields of a Breaker; `lastFailure` is None before the first failure. */
  datatype Circuit = Circuit(phase: Phase, failureCount: int, successCount: int, halfOpen: int, lastFailure: Option<int>)

  const Fresh := Circuit(Closed, 0, 0, 0, None)

  function TransitionTo(c: Circuit, phase: Phase): Circuit {
    if c.phase == phase then c else Circuit(phase, 0, 0, 0, c.lastFailure)
  }

  /** `time.Since(lastFailureTime) >= Timeout`. */
  predicate TimedOut(cfg: Config, c: Circuit, now: int) {
    c.lastFailure.Some? ==> now - c.lastFailure.value >= cfg.timeout
  }

  function CurrentState(cfg: Config, c: Circuit, now: int): Circuit {
    if c.phase.Open? && TimedOut(cfg, c, now) then TransitionTo(c, HalfOpen) else c
  }

  datatype Decision = CircuitOpen | TooManyRequests | Admitted(probe: bool)

  /** The switch of ExecuteContext, on the state that currentState left. */
  function Decide(cfg: Config, c: Circuit): Decision {
    match c.phase
    case Open => CircuitOpen
    case HalfOpen => if c.halfOpen >= cfg.maxHalfOpen then TooManyRequests else Admitted(true)
    case Closed => Admitted(false)
  }

  function Admit(cfg: Config, c: Circuit, now: int): Circuit {
    var c' := CurrentState(cfg, c, now);
    if Decide(cfg, c') == Admitted(true) then c'.(halfOpen := c'.halfOpen + 1) else c'
  }

  /** How fn ended: a panic, or an error that may wrap context.Canceled. */
  datatype Ending = Panic | Returned(failed: bool, wrapsCanceled: bool)

  datatype Verdict = Success | Failure | Ignored

  /** What the deferred function records; client cancellations are ignored. */
  function Judge(end: Ending, ctxCanceled: bool): Verdict {
    match end
    case Panic => Failure
    case Returned(failed, wrapsCanceled) =>
      if !failed then Success else if wrapsCanceled || ctxCanceled then Ignored else Failure
  }

  function RecordSuccess(cfg: Config, c: Circuit): Circuit {
    match c.phase
    case Closed => c.(failureCount := 0)
    case HalfOpen =>
      var c' := c.(successCount := c.successCount + 1);
      if c'.successCount >= cfg.successThreshold then TransitionTo(c', Closed) else c'
    case Open => c
  }

  function RecordFailure(cfg: Config, c: Circuit, now: int): Circuit {
    var c' := c.(lastFailure := Some(now));
    match c.phase
    case Closed =>
      var c'' := c'.(failureCount := c'.failureCount + 1);
      if c''.failureCount >= cfg.failureThreshold then TransitionTo(c'', Open) else c''
    case HalfOpen => TransitionTo(c', Open)
    case Open => c'
  }

  function Record(cfg: Config, c: Circuit, v: Verdict, now: int): Circuit {
    match v
    case Success => RecordSuccess(cfg, c)
    case Failure => RecordFailure(cfg, c, now)
    case Ignored => c
  }

  /** The deferred locked section of ExecuteContext. */
  function Complete(cfg: Config, c: Circuit, probe: bool, v: Verdict, now: int): Circuit {
    Record(cfg, if probe then c.(halfOpen := c.halfOpen - 1) else c, v, now)
  }

  // ---------------------------------------------------------------------------------------------
  // Overlapping calls
  // ---------------------------------------------------------------------------------------------

  /** A call of OnStateChange, with the cause that the callback is not told. */
  datatype Change = Change(from: Phase, to: Phase, byReset: bool)

  /** `inflight` maps each running call to whether it is a half-open probe. The other fields are
      history: the verdicts, the probes admitted and the probes finished since the last transition,
      the probes that were in flight when it happened, and all the transitions. */
  datatype System = System(
    c: Circuit,
    clock: int,
    inflight: map<nat, bool>,
    verdicts: seq<Verdict>,
    admitted: nat,
    finished: nat,
    carried: nat,
    log: seq<Change>)

  datatype Step =
    | Tick(now: int)
    | Enter(id: nat)                                      // ExecuteContext up to fn
    | Leave(id: nat, end: Ending, ctxCanceled: bool)      // its deferred function
    | Query                                               // State
    | Reset

  const Start := System(Fresh, 0, map[], [], 0, 0, 0, [])

  function Probes(inflight: map<nat, bool>): set<nat> {
    set id | id in inflight && inflight[id]
  }

  /** The circuit after a locked section; the history starts over when the phase changed. */
  function Moved(s: System, c: Circuit, byReset: bool): System {
    if c.phase == s.c.phase then s.(c := c)
    else s.(c := c, verdicts := [], admitted := 0, finished := 0, carried := |Probes(s.inflight)|,
            log := s.log + [Change(s.c.phase, c.phase, byReset)])
  }

  /** The state of the deferred section before the verdict is recorded. */
  function Departed(s: System, id: nat, v: Verdict): System
    requires id in s.inflight
  {
    var probe := s.inflight[id];
    s.(c := if probe then s.c.(halfOpen := s.c.halfOpen - 1) else s.c,
       inflight := s.inflight - {id},
       finished := s.finished + (if probe then 1 else 0),
       verdicts := s.verdicts + (if v.Ignored? then [] else [v]))
  }

  predicate Enabled(s: System, step: Step) {
    match step
    case Tick(now) => now >= s.clock
    case Enter(id) => id !in s.inflight
    case Leave(id, _, _) => id in s.inflight
    case _ => true
  }

  function Next(cfg: Config, s: System, step: Step): System
    requires Enabled(s, step)
  {
    match step
    case Tick(now) => s.(clock := now)
    case Enter(id) =>
      var s' := Moved(s, CurrentState(cfg, s.c, s.clock), false);
      (match Decide(cfg, s'.c)
       case Admitted(probe) =>
         s'.(c := Admit(cfg, s.c, s.clock), inflight := s'.inflight[id := probe],
             admitted := s'.admitted + (if probe then 1 else 0))
       case _ => s')
    case Leave(id, end, ctxCanceled) =>
      var v := Judge(end, ctxCanceled);
      Moved(Departed(s, id, v), Complete(cfg, s.c, s.inflight[id], v, s.clock), false)
    case Query => Moved(s, CurrentState(cfg, s.c, s.clock), false)
    case Reset => Moved(s, TransitionTo(s.c, Closed), true)
  }

  ghost predicate Run(cfg: Config, s: System, steps: seq<Step>, t: System)
    decreases |steps|
  {
    if steps == [] then s == t else Enabled(s, steps[0]) && Run(cfg, Next(cfg, s, steps[0]), steps[1..], t)
  }

  /** Length of the longest all-failure suffix. */
  function FailureStreak(vs: seq<Verdict>): (n: nat)
    ensures n <= |vs|
    ensures forall i :: |vs| - n <= i < |vs| ==> vs[i].Failure?
    ensures n < |vs| ==> !vs[|vs| - n - 1].Failure?
  {
    if |vs| == 0 || !vs[|vs| - 1].Failure? then 0 else 1 + FailureStreak(vs[..|vs| - 1])
  }

  /** The time of the latest recorded failure, read off the steps alone. */
  function LatestFailure(steps: seq<Step>, clock: int, latest: Option<int>): Option<int>
    decreases |steps|
  {
    if steps == [] then latest
    else match steps[0]
      case Tick(now) => LatestFailure(steps[1..], now, latest)
      case Leave(_, end, ctxCanceled) =>
        LatestFailure(steps[1..], clock, if Judge(end, ctxCanceled).Failure? then Some(clock) else latest)
      case _ => LatestFailure(steps[1..], clock, latest)
  }

  // ---------------------------------------------------------------------------------------------
  // Invariant
  // ---------------------------------------------------------------------------------------------

  ghost predicate ProbeAccounting(cfg: Config, s: System) {
    && s.c.halfOpen == s.admitted - s.finished <= cfg.maxHalfOpen
    && |Probes(s.inflight)| == s.carried + s.admitted - s.finished
    && (!s.c.phase.HalfOpen? ==> s.admitted == 0)
  }

  ghost predicate Counters(cfg: Config, s: System) {
    && (forall v :: v in s.verdicts ==> !v.Ignored?)
    && match s.c.phase
       case Closed =>
         s.c.failureCount == FailureStreak(s.verdicts) < cfg.failureThreshold && s.c.successCount == 0
       case HalfOpen =>
         && (forall v :: v in s.verdicts ==> v.Success?)
         && s.c.successCount == |s.verdicts| < cfg.successThreshold && s.c.failureCount == 0
       case Open => s.c.failureCount == 0 && s.c.successCount == 0 && s.c.lastFailure.Some?
  }

  predicate AllowedChange(ch: Change) {
    match (ch.from, ch.to)
    case (Closed, Open) => !ch.byReset
    case (Open, HalfOpen) => !ch.byReset
    case (HalfOpen, Open) => !ch.byReset
    case (HalfOpen, Closed) => true
    case (Open, Closed) => ch.byReset
    case _ => false
  }

  /** A path from Closed to `phase` along allowed transitions. */
  ghost predicate Path(log: seq<Change>, phase: Phase) {
    && (forall i :: 0 <= i < |log| ==> AllowedChange(log[i]))
    && (forall i :: 0 < i < |log| ==> log[i - 1].to == log[i].from)
    && (if log == [] then phase.Closed? else log[0].from.Closed? && log[|log| - 1].to == phase)
  }

  ghost predicate Inv(cfg: Config, s: System) {
    ProbeAccounting(cfg, s) && Counters(cfg, s) && Path(s.log, s.c.phase)
  }

  lemma ProbesUpdate(inflight: map<nat, bool>, id: nat, probe: bool)
    ensures id !in inflight ==>
              |Probes(inflight[id := probe])| == |Probes(inflight)| + (if probe then 1 else 0)
    ensures id in inflight ==>
              |Probes(inflight - {id})| == |Probes(inflight)| - (if inflight[id] then 1 else 0)
  {
    if id !in inflight {
      assert Probes(inflight[id := probe]) == Probes(inflight) + (if probe then {id} else {});
    } else {
      assert Probes(inflight - {id}) == Probes(inflight) - {id};
      if !inflight[id] { assert Probes(inflight) - {id} == Probes(inflight); }
    }
  }

  /** A change of phase leaves a fresh history and extends the path. */
  lemma MovedInv(cfg: Config, s: System, c: Circuit, byReset: bool)
    requires Path(s.log, s.c.phase) && Sane(cfg)
    requires c.phase != s.c.phase && AllowedChange(Change(s.c.phase, c.phase, byReset))
    requires c.failureCount == 0 && c.successCount == 0 && c.halfOpen == 0
    requires c.phase.Open? ==> c.lastFailure.Some?
    ensures Inv(cfg, Moved(s, c, byReset))
  {
  }

  lemma CurrentStateInv(cfg: Config, s: System)
    requires Sane(cfg) && Inv(cfg, s)
    ensures Inv(cfg, Moved(s, CurrentState(cfg, s.c, s.clock), false))
  {
    var c := CurrentState(cfg, s.c, s.clock);
    if c.phase != s.c.phase {
      MovedInv(cfg, s, c, false);
    }
  }

  lemma EnterInv(cfg: Config, s: System, id: nat)
    requires Sane(cfg) && Inv(cfg, s) && Enabled(s, Enter(id))
    ensures Inv(cfg, Next(cfg, s, Enter(id)))
  {
    CurrentStateInv(cfg, s);
    var s' := Moved(s, CurrentState(cfg, s.c, s.clock), false);
    ProbesUpdate(s'.inflight, id, s'.c.phase.HalfOpen?);
  }

  /** Recording a verdict keeps the counters in step with the history, or moves to another phase. */
  lemma RecordCounters(cfg: Config, s: System, v: Verdict)
    requires Sane(cfg) && Counters(cfg, s)
    ensures var c := Record(cfg, s.c, v, s.clock);
            if c.phase == s.c.phase then
              && c.halfOpen == s.c.halfOpen
              && Counters(cfg, s.(c := c, verdicts := s.verdicts + (if v.Ignored? then [] else [v])))
            else
              && AllowedChange(Change(s.c.phase, c.phase, false))
              && c.failureCount == 0 && c.successCount == 0 && c.halfOpen == 0
              && (c.phase.Open? ==> c.lastFailure.Some?)
  {
    if !v.Ignored? {
      assert (s.verdicts + [v])[..|s.verdicts|] == s.verdicts;
    } else {
      assert s.verdicts + [] == s.verdicts;
    }
  }

  /** Leaving frees the call's slot, and nothing else changes before the verdict is recorded. */
  lemma DepartedAccounting(cfg: Config, s: System, id: nat, v: Verdict)
    requires ProbeAccounting(cfg, s) && Counters(cfg, s) && id in s.inflight
    ensures ProbeAccounting(cfg, Departed(s, id, v))
    ensures Counters(cfg, Departed(s, id, v).(verdicts := s.verdicts))
  {
    ProbesUpdate(s.inflight, id, false);
  }

  /** A verdict that keeps the phase keeps the slots and the path as well. */
  lemma SamePhase(cfg: Config, s: System, c: Circuit)
    requires ProbeAccounting(cfg, s) && Path(s.log, s.c.phase) && Counters(cfg, s.(c := c))
    requires c.phase == s.c.phase && c.halfOpen == s.c.halfOpen
    ensures Inv(cfg, Moved(s, c, false))
  {
  }

  /** Recording the verdict of a departed call. */
  lemma RecordInv(cfg: Config, s: System, earlier: seq<Verdict>, v: Verdict)
    requires Sane(cfg) && ProbeAccounting(cfg, s) && Path(s.log, s.c.phase)
    requires s.verdicts == earlier + (if v.Ignored? then [] else [v]) && Counters(cfg, s.(verdicts := earlier))
    ensures Inv(cfg, Moved(s, Record(cfg, s.c, v, s.clock), false))
  {
    var c := Record(cfg, s.c, v, s.clock);
    RecordCounters(cfg, s.(verdicts := earlier), v);
    if c.phase != s.c.phase {
      MovedInv(cfg, s, c, false);
    } else {
      SamePhase(cfg, s, c);
    }
  }

  lemma LeaveInv(cfg: Config, s: System, id: nat, end: Ending, ctxCanceled: bool)
    requires Sane(cfg) && Inv(cfg, s) && Enabled(s, Leave(id, end, ctxCanceled))
    ensures Inv(cfg, Next(cfg, s, Leave(id, end, ctxCanceled)))
  {
    var v := Judge(end, ctxCanceled);
    DepartedAccounting(cfg, s, id, v);
    RecordInv(cfg, Departed(s, id, v), s.verdicts, v);
  }

  lemma StepInv(cfg: Config, s: System, step: Step)
    requires Sane(cfg) && Inv(cfg, s) && Enabled(s, step)
    ensures Inv(cfg, Next(cfg, s, step))
  {
    match step
    case Tick(_) =>
    case Enter(id) => EnterInv(cfg, s, id);
    case Leave(id, end, ctxCanceled) => LeaveInv(cfg, s, id, end, ctxCanceled);
    case Query => CurrentStateInv(cfg, s);
    case Reset =>
      if !s.c.phase.Closed? { MovedInv(cfg, s, TransitionTo(s.c, Closed), true); }
  }

  lemma {:induction false} RunInv(cfg: Config, s: System, steps: seq<Step>, t: System)
    requires Sane(cfg) && Inv(cfg, s) && Run(cfg, s, steps, t)
    ensures Inv(cfg, t)
    decreases |steps|
  {
    if steps != [] {
      StepInv(cfg, s, steps[0]);
      RunInv(cfg, Next(cfg, s, steps[0]), steps[1..], t);
    }
  }

  lemma StartInv(cfg: Config)
    requires Sane(cfg)
    ensures Inv(cfg, Start)
  {
    assert Probes(map[]) == {};
  }

  ghost predicate Reachable(cfg: Config, s: System) {
    exists steps :: Run(cfg, Start, steps, s)
  }

  lemma ReachableInv(cfg: Config, s: System)
    requires Sane(cfg) && Reachable(cfg, s)
    ensures Inv(cfg, s)
  {
    var steps :| Run(cfg, Start, steps, s);
    StartInv(cfg);
    RunInv(cfg, Start, steps, s);
  }
}
