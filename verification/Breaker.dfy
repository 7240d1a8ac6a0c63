/** `circuitbreaker.Breaker` in its own form: an object whose methods update its fields under a
    mutex. Each method is one locked section; clock readings are parameters. */
module Breaker {
  import opened Wrappers
  import opened BreakerProtocol

  class Breaker {
    const config: Config
    var state: Phase
    var failureCount: int
    var successCount: int
    var halfOpenRequests: int
    var lastFailureTime: Option<int>
    /** What OnStateChange has been told. */
    var changes: seq<(Phase, Phase)>

    function View(): Circuit
      reads this
    {
      Circuit(state, failureCount, successCount, halfOpenRequests, lastFailureTime)
    }

    /** The callback log after a locked section that starts in `from` and ends in the present state. */
    predicate Reported(before: seq<(Phase, Phase)>, from: Phase)
      reads this
    {
      changes == if state == from then before else before + [(from, state)]
    }

    constructor (cfg: Config)
      ensures config == Sanitized(cfg) && View() == Fresh && changes == []
    {
      var c := cfg;
      if c.failureThreshold <= 0 { c := c.(failureThreshold := 5); }
      if c.successThreshold <= 0 { c := c.(successThreshold := 2); }
      if c.timeout <= 0 { c := c.(timeout := DEFAULT_TIMEOUT); }
      if c.maxHalfOpen <= 0 { c := c.(maxHalfOpen := 1); }
      config := c;
      state := Closed;
      failureCount, successCount, halfOpenRequests := 0, 0, 0;
      lastFailureTime := None;
      changes := [];
    }

    method Transition(phase: Phase)
      modifies this
      ensures View() == TransitionTo(old(View()), phase)
      ensures Reported(old(changes), old(state))
    {
      if state == phase {
        return;
      }
      var from := state;
      state := phase;
      failureCount := 0;
      successCount := 0;
      halfOpenRequests := 0;
      changes := changes + [(from, phase)];
    }

    method EvaluateState(now: int) returns (phase: Phase)
      modifies this
      ensures View() == CurrentState(config, old(View()), now) && phase == state
      ensures Reported(old(changes), old(state))
    {
      if state == Open {
        if lastFailureTime.None? || now - lastFailureTime.value >= config.timeout {
          Transition(HalfOpen);
        }
      }
      return state;
    }

    /** ExecuteContext up to the call of fn. */
    method Enter(now: int) returns (decision: Decision)
      modifies this
      ensures decision == Decide(config, CurrentState(config, old(View()), now))
      ensures View() == Admit(config, old(View()), now)
      ensures Reported(old(changes), old(state))
    {
      var phase := EvaluateState(now);
      match phase {
        case Open =>
          decision := CircuitOpen;
        case HalfOpen =>
          if halfOpenRequests >= config.maxHalfOpen {
            decision := TooManyRequests;
          } else {
            halfOpenRequests := halfOpenRequests + 1;
            decision := Admitted(true);
          }
        case Closed =>
          decision := Admitted(false);
      }
    }

    method NoteSuccess()
      modifies this
      ensures View() == RecordSuccess(config, old(View()))
      ensures Reported(old(changes), old(state))
    {
      match state {
        case Closed =>
          failureCount := 0;
        case HalfOpen =>
          successCount := successCount + 1;
          if successCount >= config.successThreshold {
            Transition(Closed);
          }
        case Open =>
      }
    }

    method NoteFailure(now: int)
      modifies this
      ensures View() == RecordFailure(config, old(View()), now)
      ensures Reported(old(changes), old(state))
    {
      lastFailureTime := Some(now);
      match state {
        case Closed =>
          failureCount := failureCount + 1;
          if failureCount >= config.failureThreshold {
            Transition(Open);
          }
        case HalfOpen =>
          Transition(Open);
        case Open =>
      }
    }

    /** The deferred function of ExecuteContext. */
    method Leave(isHalfOpenProbe: bool, end: Ending, ctxCanceled: bool, now: int)
      modifies this
      ensures View() == Complete(config, old(View()), isHalfOpenProbe, Judge(end, ctxCanceled), now)
      ensures Reported(old(changes), old(state))
    {
      if isHalfOpenProbe {
        halfOpenRequests := halfOpenRequests - 1;
      }
      match end {
        case Panic =>
          NoteFailure(now);
        case Returned(failed, wrapsCanceled) =>
          if failed {
            if !wrapsCanceled && !ctxCanceled {
              NoteFailure(now);
            }
          } else {
            NoteSuccess();
          }
      }
    }

    method State(now: int) returns (phase: Phase)
      modifies this
      ensures View() == CurrentState(config, old(View()), now) && phase == state
      ensures Reported(old(changes), old(state))
    {
      phase := EvaluateState(now);
    }

    method Reset()
      modifies this
      ensures View() == TransitionTo(old(View()), Closed)
      ensures Reported(old(changes), old(state))
    {
      Transition(Closed);
    }
  }

  /** What OnStateChange is told of a transition. */
  function Told(log: seq<Change>): (r: seq<(Phase, Phase)>)
    ensures |r| == |log| && forall i :: 0 <= i < |log| ==> r[i] == (log[i].from, log[i].to)
  {
    seq(|log|, i requires 0 <= i < |log| => (log[i].from, log[i].to))
  }

  lemma ToldGrows(log: seq<Change>, ch: Change)
    ensures Told(log + [ch]) == Told(log) + [(ch.from, ch.to)]
  {
  }

  lemma MovedTold(s: System, c: Circuit, byReset: bool)
    ensures Told(Moved(s, c, byReset).log) ==
            if c.phase == s.c.phase then Told(s.log) else Told(s.log) + [(s.c.phase, c.phase)]
  {
    ToldGrows(s.log, Change(s.c.phase, c.phase, byReset));
  }

  /** One object under its callers: for every interleaving of their locked sections its fields are
      those of the step system, and OnStateChange is told exactly the transitions of the log, in
      order. `probes` are the callers' local variables, `now` is the clock they read. */
  method Serve(cfg: Config, steps: seq<Step>, ghost end: System) returns (b: Breaker, probes: map<nat, bool>)
    requires Run(Sanitized(cfg), Start, steps, end)
    ensures fresh(b) && b.config == Sanitized(cfg)
    ensures b.View() == end.c && b.changes == Told(end.log) && probes == end.inflight
  {
    b := new Breaker(cfg);
    probes := map[];
    var now := 0;
    ghost var s := Start;
    for k := 0 to |steps|
      invariant fresh(b) && b.config == Sanitized(cfg)
      invariant b.View() == s.c && b.changes == Told(s.log) && probes == s.inflight && now == s.clock
      invariant Run(b.config, s, steps[k..], end)
    {
      assert steps[k..][0] == steps[k] && steps[k..][1..] == steps[k + 1..];
      ghost var t := Next(b.config, s, steps[k]);
      StepTold(b.config, s, steps[k]);
      match steps[k] {
        case Tick(later) =>
          now := later;
        case Enter(id) =>
          var decision := b.Enter(now);
          if decision.Admitted? {
            probes := probes[id := decision.probe];
          }
        case Leave(id, ending, ctxCanceled) =>
          b.Leave(probes[id], ending, ctxCanceled, now);
          probes := probes - {id};
        case Query =>
          var _ := b.State(now);
        case Reset =>
          b.Reset();
      }
      s := t;
    }
    assert steps[|steps|..] == [];
  }

  /** A step logs at most one transition, the one between the phases around it. */
  lemma StepTold(cfg: Config, s: System, step: Step)
    requires Enabled(s, step)
    ensures var t := Next(cfg, s, step);
            Told(t.log) == if t.c.phase == s.c.phase then Told(s.log) else Told(s.log) + [(s.c.phase, t.c.phase)]
  {
    match step
    case Tick(_) =>
    case Enter(_) => MovedTold(s, CurrentState(cfg, s.c, s.clock), false);
    case Leave(id, end, ctxCanceled) =>
      var v := Judge(end, ctxCanceled);
      MovedTold(Departed(s, id, v), Complete(cfg, s.c, s.inflight[id], v, s.clock), false);
    case Query => MovedTold(s, CurrentState(cfg, s.c, s.clock), false);
    case Reset => MovedTold(s, TransitionTo(s.c, Closed), true);
  }
}
