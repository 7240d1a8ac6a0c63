/** What holds of a breaker over every interleaving of its callers. */
module BreakerTheorems {
  import opened Wrappers
  import opened BreakerProtocol

  // ---------------------------------------------------------------------------------------------
  // Probes
  // ---------------------------------------------------------------------------------------------

  /** Probe-slot accounting: the slot counter never exceeds the maximum; the probes in flight are the
      slots in use plus the probes carried over at the last transition. With none carried over the
      counter is the number of probes in flight and the maximum bounds it; with some it may go as
      far below zero as there were carried ones. */
  lemma ProbeSlots(cfg: Config, s: System)
    requires Sane(cfg) && Reachable(cfg, s)
    ensures s.c.halfOpen <= cfg.maxHalfOpen
    ensures |Probes(s.inflight)| == s.c.halfOpen + s.carried
    ensures 0 <= s.c.halfOpen + s.carried
    ensures s.carried == 0 ==> 0 <= s.c.halfOpen == |Probes(s.inflight)| <= cfg.maxHalfOpen
  {
    ReachableInv(cfg, s);
  }

  /** The callers fill the remaining slots: with c probes carried over into this phase the breaker
      lets c more than the maximum run at the same time. */
  lemma {:induction false} SaturatedPhase(cfg: Config, s: System) returns (steps: seq<Step>, t: System)
    requires Sane(cfg) && Inv(cfg, s) && s.c.phase.HalfOpen?
    ensures Run(cfg, s, steps, t) && t.c.phase.HalfOpen? && t.log == s.log
    ensures |Probes(t.inflight)| == cfg.maxHalfOpen + s.carried
    ensures s.inflight.Keys - Probes(s.inflight) <= t.inflight.Keys - Probes(t.inflight)
    decreases cfg.maxHalfOpen - s.c.halfOpen
  {
    if s.c.halfOpen == cfg.maxHalfOpen {
      steps, t := [], s;
    } else {
      var id := FreshId(s.inflight.Keys);
      var s' := Next(cfg, s, Enter(id));
      EnterInv(cfg, s, id);
      var rest;
      rest, t := SaturatedPhase(cfg, s');
      steps := [Enter(id)] + rest;
      assert steps[1..] == rest;
    }
  }

  /** The runs that stay in the present phase. */
  ghost predicate WithinPhase(cfg: Config, s: System, steps: seq<Step>, t: System) {
    Run(cfg, s, steps, t) && t.log == s.log
  }

  /** A step never shortens the log, and a step that changes the phase extends it. */
  lemma LogGrows(cfg: Config, s: System, step: Step)
    requires Enabled(s, step)
    ensures var t := Next(cfg, s, step);
            if t.c.phase == s.c.phase then t.log == s.log && t.carried == s.carried
            else |t.log| == |s.log| + 1
  {
  }

  lemma {:induction false} CarriedIsFixed(cfg: Config, s: System, steps: seq<Step>, t: System)
    requires Run(cfg, s, steps, t)
    ensures |t.log| >= |s.log|
    ensures t.log == s.log ==> t.carried == s.carried
    decreases |steps|
  {
    if steps != [] {
      var s' := Next(cfg, s, steps[0]);
      LogGrows(cfg, s, steps[0]);
      CarriedIsFixed(cfg, s', steps[1..], t);
    }
  }

  /** The documented limit on concurrent half-open requests, exactly: a half-open phase keeps within
      MaxHalfOpenRequests in all its continuations if and only if no probe of an earlier phase was
      still running when it was entered. */
  lemma ConcurrencyLimitIffNoneCarried(cfg: Config, s: System)
    requires Sane(cfg) && Reachable(cfg, s) && s.c.phase.HalfOpen?
    ensures (forall steps, t :: WithinPhase(cfg, s, steps, t) ==> |Probes(t.inflight)| <= cfg.maxHalfOpen)
            <==> s.carried == 0
  {
    ReachableInv(cfg, s);
    if s.carried == 0 {
      forall steps, t | WithinPhase(cfg, s, steps, t) ensures |Probes(t.inflight)| <= cfg.maxHalfOpen {
        RunInv(cfg, s, steps, t);
        CarriedIsFixed(cfg, s, steps, t);
      }
    } else {
      var steps, t := SaturatedPhase(cfg, s);
      assert WithinPhase(cfg, s, steps, t);
    }
  }

  /** A phase keeps its calls that are not probes only as long as they run, and admits none. */
  lemma {:induction false} OnlyProbesJoin(cfg: Config, s: System, steps: seq<Step>, t: System)
    requires WithinPhase(cfg, s, steps, t) && s.c.phase.HalfOpen?
    ensures t.inflight.Keys - Probes(t.inflight) <= s.inflight.Keys - Probes(s.inflight)
    decreases |steps|
  {
    if steps != [] {
      var s' := Next(cfg, s, steps[0]);
      LogGrows(cfg, s, steps[0]);
      CarriedIsFixed(cfg, s', steps[1..], t);
      OnlyProbesJoin(cfg, s', steps[1..], t);
    }
  }

  /** The limit read as a limit on all the requests that run during a half-open phase, calls admitted
      while Closed included: it is kept in all continuations of the phase if and only if neither a
      probe of an earlier phase nor any call that is not a probe is still running. */
  lemma RequestLimitIff(cfg: Config, s: System)
    requires Sane(cfg) && Reachable(cfg, s) && s.c.phase.HalfOpen?
    ensures (forall steps, t :: WithinPhase(cfg, s, steps, t) ==> |t.inflight| <= cfg.maxHalfOpen)
            <==> s.carried == 0 && Probes(s.inflight) == s.inflight.Keys
  {
    ReachableInv(cfg, s);
    if s.carried == 0 && Probes(s.inflight) == s.inflight.Keys {
      forall steps, t | WithinPhase(cfg, s, steps, t) ensures |t.inflight| <= cfg.maxHalfOpen {
        RunInv(cfg, s, steps, t);
        CarriedIsFixed(cfg, s, steps, t);
        OnlyProbesJoin(cfg, s, steps, t);
        assert t.inflight.Keys - Probes(t.inflight) <= {};
        forall id | id in t.inflight.Keys ensures id in Probes(t.inflight) {
          assert id !in t.inflight.Keys - Probes(t.inflight);
        }
        assert Probes(t.inflight) == t.inflight.Keys;
        assert |t.inflight| == |t.inflight.Keys|;
      }
    } else {
      var steps, t := SaturatedPhase(cfg, s);
      assert WithinPhase(cfg, s, steps, t);
      var probes, others := Probes(t.inflight), t.inflight.Keys - Probes(t.inflight);
      assert t.inflight.Keys == probes + others;
      assert |t.inflight| == |t.inflight.Keys| == |probes| + |others|;
      if s.carried == 0 {
        var before := s.inflight.Keys - Probes(s.inflight);
        assert s.inflight.Keys == Probes(s.inflight) + before;
        var id :| id in before;
        assert id in others;
      }
    }
  }

  const Strict := Config(1, 1, 10, 1)
  const Failing := Returned(true, false)

  /** Two calls enter while Closed; the first trips the breaker, the second reports its failure while
      a probe is running, and after another timeout a second probe enters. */
  const Overlap := [Enter(0), Enter(1), Leave(0, Failing, false), Tick(10), Enter(2),
                    Leave(1, Failing, false), Tick(20), Enter(3)]

  /** A run can be extended at its end. */
  lemma {:induction false} RunSnoc(cfg: Config, s: System, steps: seq<Step>, t: System, step: Step)
    requires Run(cfg, s, steps, t) && Enabled(t, step)
    ensures Run(cfg, s, steps + [step], Next(cfg, t, step))
    decreases |steps|
  {
    if steps == [] {
      assert [step][1..] == [];
    } else {
      assert (steps + [step])[1..] == steps[1..] + [step];
      RunSnoc(cfg, Next(cfg, s, steps[0]), steps[1..], t, step);
    }
  }

  const Tripped := System(Circuit(Open, 0, 0, 0, Some(0)), 0, map[1 := false], [], 0, 0, 0, [Change(Closed, Open, false)])

  lemma FirstHalf()
    ensures Run(Strict, Start, Overlap[..3], Tripped)
  {
    var s1 := Next(Strict, Start, Enter(0));
    var s2 := Next(Strict, s1, Enter(1));
    RunSnoc(Strict, Start, [], Start, Enter(0));
    RunSnoc(Strict, Start, [Enter(0)], s1, Enter(1));
    assert [] + [Enter(0)] == [Enter(0)] && [Enter(0)] + [Enter(1)] == Overlap[..2];
    assert s2.inflight - {0} == map[1 := false] && Probes(map[1 := false]) == {};
    assert Next(Strict, s2, Leave(0, Failing, false)) == Tripped;
    RunSnoc(Strict, Start, Overlap[..2], s2, Leave(0, Failing, false));
    assert Overlap[..2] + [Leave(0, Failing, false)] == Overlap[..3];
  }

  const Probing := System(Circuit(HalfOpen, 0, 0, 1, Some(0)), 10, map[1 := false, 2 := true], [], 1, 0, 0,
                          Tripped.log + [Change(Open, HalfOpen, false)])
  const Reopened := System(Circuit(Open, 0, 0, 0, Some(10)), 10, map[2 := true], [], 0, 0, 1,
                           Probing.log + [Change(HalfOpen, Open, false)])
  const Exceeded := System(Circuit(HalfOpen, 0, 0, 1, Some(10)), 20, map[2 := true, 3 := true], [], 1, 0, 1,
                           Reopened.log + [Change(Open, HalfOpen, false)])

  lemma SecondQuarter()
    ensures Run(Strict, Start, Overlap[..5], Probing)
  {
    FirstHalf();
    var waited := Next(Strict, Tripped, Tick(10));
    assert Probes(map[1 := false]) == {};
    assert Next(Strict, waited, Enter(2)) == Probing;
    RunSnoc(Strict, Start, Overlap[..3], Tripped, Tick(10));
    assert Overlap[..3] + [Tick(10)] == Overlap[..4];
    RunSnoc(Strict, Start, Overlap[..4], waited, Enter(2));
    assert Overlap[..4] + [Enter(2)] == Overlap[..5];
  }

  /** With a limit of one, two requests run during a half-open phase although no probe was carried in:
      the other one was admitted while Closed. */
  lemma TwoRequestsWithLimitOne()
    ensures Sane(Strict) && Run(Strict, Start, Overlap[..5], Probing)
    ensures Probing.c.phase.HalfOpen? && Probing.carried == 0 && |Probing.inflight| == 2 > Strict.maxHalfOpen
  {
    SecondQuarter();
    assert Probing.inflight.Keys == {1, 2};
    assert |Probing.inflight| == |Probing.inflight.Keys|;
  }

  lemma ThirdQuarter()
    ensures Run(Strict, Start, Overlap[..6], Reopened)
  {
    SecondQuarter();
    assert Probing.inflight - {1} == map[2 := true] && Probes(map[2 := true]) == {2};
    assert Next(Strict, Probing, Leave(1, Failing, false)) == Reopened;
    RunSnoc(Strict, Start, Overlap[..5], Probing, Leave(1, Failing, false));
    assert Overlap[..5] + [Leave(1, Failing, false)] == Overlap[..6];
  }

  /** The limit of one half-open request is exceeded in a reachable state. */
  lemma TwoProbesWithLimitOne()
    ensures Sane(Strict) && Run(Strict, Start, Overlap, Exceeded)
    ensures Exceeded.c.phase.HalfOpen? && |Probes(Exceeded.inflight)| == 2 > Strict.maxHalfOpen
  {
    ThirdQuarter();
    var waited := Next(Strict, Reopened, Tick(20));
    assert Probes(map[2 := true]) == {2};
    assert Next(Strict, waited, Enter(3)) == Exceeded;
    RunSnoc(Strict, Start, Overlap[..6], Reopened, Tick(20));
    assert Overlap[..6] + [Tick(20)] == Overlap[..7];
    RunSnoc(Strict, Start, Overlap[..7], waited, Enter(3));
    assert Overlap[..7] + [Enter(3)] == Overlap;
    assert Probes(Exceeded.inflight) == {2, 3};
  }

  // ---------------------------------------------------------------------------------------------
  // Trip and recovery
  // ---------------------------------------------------------------------------------------------

  /** While Closed, failureCount is the length of the longest all-failure suffix of the verdicts
      recorded since Closed was entered, late verdicts of earlier phases included; the breaker opens
      at exactly the verdict that makes the suffix FailureThreshold long, and leaves Closed no other way. */
  lemma TripCharacterisation(cfg: Config, s: System, step: Step)
    requires Sane(cfg) && Reachable(cfg, s) && s.c.phase.Closed? && Enabled(s, step)
    ensures s.c.failureCount == FailureStreak(s.verdicts)
    ensures !Next(cfg, s, step).c.phase.HalfOpen?
    ensures Next(cfg, s, step).c.phase.Open? <==>
              && step.Leave? && Judge(step.end, step.ctxCanceled).Failure?
              && FailureStreak(s.verdicts + [Failure]) == cfg.failureThreshold
  {
    ReachableInv(cfg, s);
    StreakGrows(s.verdicts);
  }

  lemma StreakGrows(vs: seq<Verdict>)
    ensures FailureStreak(vs + [Failure]) == FailureStreak(vs) + 1
  {
    assert (vs + [Failure])[..|vs|] == vs;
  }

  /** In a half-open phase no failure has been recorded yet and successCount counts its verdicts. It
      ends in Closed, other than by Reset, exactly at the success that completes SuccessThreshold,
      and it ends in Open exactly at the first failure. */
  lemma RecoveryCharacterisation(cfg: Config, s: System, step: Step)
    requires Sane(cfg) && Reachable(cfg, s) && s.c.phase.HalfOpen? && Enabled(s, step)
    ensures s.c.successCount == |s.verdicts| < cfg.successThreshold
    ensures forall v :: v in s.verdicts ==> v.Success?
    ensures Next(cfg, s, step).c.phase.Closed? && !step.Reset? <==>
              && step.Leave? && Judge(step.end, step.ctxCanceled).Success?
              && |s.verdicts + [Success]| == cfg.successThreshold
    ensures Next(cfg, s, step).c.phase.Open? <==> step.Leave? && Judge(step.end, step.ctxCanceled).Failure?
  {
    ReachableInv(cfg, s);
  }

  /** The transitions reported to OnStateChange always form a chained path without self-loops; the
      only way from Open straight to Closed is Reset. */
  lemma TransitionsFormAPath(cfg: Config, s: System)
    requires Sane(cfg) && Reachable(cfg, s)
    ensures Path(s.log, s.c.phase)
    ensures forall i :: 0 <= i < |s.log| ==> s.log[i].from != s.log[i].to
    ensures forall i :: 0 <= i < |s.log| && s.log[i].from.Open? && s.log[i].to.Closed? ==> s.log[i].byReset
  {
    ReachableInv(cfg, s);
  }

  /** The ending is a failure of the downstream: a panic, or an error that is not the client's own
      cancellation. */
  predicate Fails(end: Ending, ctxCanceled: bool) {
    end.Panic? || (end.failed && !end.wrapsCanceled && !ctxCanceled)
  }

  predicate Succeeds(end: Ending) {
    end.Returned? && !end.failed
  }

  /** What a finished call does, in every phase. A failure moves lastFailureTime, counts up in Closed and
      opens the breaker at the threshold, opens a half-open breaker, and does nothing else while Open. A
      success ends the failure streak, counts up in HalfOpen and closes the breaker at the threshold.
      Every other ending touches nothing but the probe slot, which is given back in any case. */
  lemma FinishedCall(cfg: Config, s: System, id: nat, end: Ending, ctxCanceled: bool)
    requires Sane(cfg) && Reachable(cfg, s) && Enabled(s, Leave(id, end, ctxCanceled))
    ensures var t := Next(cfg, s, Leave(id, end, ctxCanceled));
            var slots := s.c.halfOpen - (if s.inflight[id] then 1 else 0);
            && t.inflight == s.inflight - {id} && t.clock == s.clock
            && (if Fails(end, ctxCanceled) then
                  t.c == match s.c.phase
                         case Closed =>
                           if s.c.failureCount + 1 >= cfg.failureThreshold then Circuit(Open, 0, 0, 0, Some(s.clock))
                           else Circuit(Closed, s.c.failureCount + 1, 0, slots, Some(s.clock))
                         case HalfOpen => Circuit(Open, 0, 0, 0, Some(s.clock))
                         case Open => Circuit(Open, 0, 0, slots, Some(s.clock))
                else if Succeeds(end) then
                  t.c == match s.c.phase
                         case Closed => Circuit(Closed, 0, 0, slots, s.c.lastFailure)
                         case HalfOpen =>
                           if s.c.successCount + 1 >= cfg.successThreshold then Circuit(Closed, 0, 0, 0, s.c.lastFailure)
                           else Circuit(HalfOpen, 0, s.c.successCount + 1, slots, s.c.lastFailure)
                         case Open => Circuit(Open, 0, 0, slots, s.c.lastFailure)
                else
                  t.c == s.c.(halfOpen := slots) && t.log == s.log)
  {
    ReachableInv(cfg, s);
  }

  /** What a caller that asks to be let in meets, in every phase. A closed breaker lets it through; one
      that is open within its timeout turns it away with ErrCircuitOpen; one that is half-open, or open
      beyond its timeout, makes it a probe while a slot is free and turns it away with
      ErrTooManyRequests otherwise. */
  lemma Admission(cfg: Config, s: System, id: nat)
    requires Sane(cfg) && Reachable(cfg, s) && id !in s.inflight
    ensures var t := Next(cfg, s, Enter(id));
            var decision := Decide(cfg, CurrentState(cfg, s.c, s.clock));
            && t.clock == s.clock
            && match s.c.phase
               case Closed => decision == Admitted(false) && t == s.(inflight := s.inflight[id := false])
               case Open =>
                 && s.c.lastFailure.Some?
                 && (if s.clock - s.c.lastFailure.value < cfg.timeout then decision == CircuitOpen && t == s
                     else decision == Admitted(true) && t.inflight == s.inflight[id := true] &&
                          t.c == Circuit(HalfOpen, 0, 0, 1, s.c.lastFailure))
               case HalfOpen =>
                 if s.c.halfOpen < cfg.maxHalfOpen then
                   decision == Admitted(true) && t.inflight == s.inflight[id := true] &&
                   t.c == s.c.(halfOpen := s.c.halfOpen + 1)
                 else
                   decision == TooManyRequests && t == s
  {
    ReachableInv(cfg, s);
  }

  /** What is logged, and reported to OnStateChange: every step that changes the phase adds exactly that
      change, marked as a Reset's if it is one, and no other step adds anything. */
  lemma OneReportPerChange(cfg: Config, s: System, step: Step)
    requires Enabled(s, step)
    ensures var t := Next(cfg, s, step);
            t.log == s.log + (if t.c.phase == s.c.phase then [] else [Change(s.c.phase, t.c.phase, step.Reset?)])
  {
  }

  /** Time alone changes nothing but the clock, and asking for the state moves an open breaker beyond its
      timeout to half-open and changes nothing otherwise. */
  lemma Observation(cfg: Config, s: System, now: int)
    requires Sane(cfg) && Reachable(cfg, s)
    ensures now >= s.clock ==> Next(cfg, s, Tick(now)) == s.(clock := now)
    ensures var t := Next(cfg, s, Query);
            if s.c.phase.Open? && s.c.lastFailure.Some? && s.clock - s.c.lastFailure.value >= cfg.timeout then
              t.c == Circuit(HalfOpen, 0, 0, 0, s.c.lastFailure) && t.inflight == s.inflight
            else t == s
  {
    ReachableInv(cfg, s);
  }

  /** Reset ends in Closed and never touches lastFailureTime or a running call. While Closed it is a
      no-op, because the transition returns early; the three counters that it is documented to clear
      are therefore zero afterwards if and only if the breaker was not Closed, or was Closed with no
      failure streak and no probe of an earlier phase finished. */
  lemma ResetClearsCountersIff(cfg: Config, s: System)
    requires Sane(cfg) && Reachable(cfg, s)
    ensures var t := Next(cfg, s, Reset);
            && t.c.phase.Closed? && t.c.lastFailure == s.c.lastFailure && t.inflight == s.inflight
            && (s.c.phase.Closed? ==> t == s)
            && (t.c.failureCount == 0 && t.c.successCount == 0 && t.c.halfOpen == 0 <==>
                  !s.c.phase.Closed? || (s.c.failureCount == 0 && s.c.halfOpen == 0))
    ensures s.c.phase.Closed? ==> s.c.failureCount == FailureStreak(s.verdicts) && s.c.halfOpen == 0 - s.finished
  {
    ReachableInv(cfg, s);
  }

  const Tolerant := Config(2, 1, 10, 1)
  const Struck := System(Circuit(Closed, 1, 0, 0, Some(0)), 0, map[], [Failure], 0, 0, 0, [])

  /** A single failure below the threshold: the breaker is Closed, and Reset keeps the streak. */
  lemma ResetKeepsStreak()
    ensures Sane(Tolerant) && Run(Tolerant, Start, [Enter(0), Leave(0, Failing, false)], Struck)
    ensures Next(Tolerant, Struck, Reset) == Struck && Struck.c.failureCount == 1
  {
    var s1 := Next(Tolerant, Start, Enter(0));
    assert s1.inflight - {0} == map[];
    assert Next(Tolerant, s1, Leave(0, Failing, false)) == Struck;
    RunSnoc(Tolerant, Start, [], Start, Enter(0));
    assert [] + [Enter(0)] == [Enter(0)];
    RunSnoc(Tolerant, Start, [Enter(0)], s1, Leave(0, Failing, false));
    assert [Enter(0)] + [Leave(0, Failing, false)] == [Enter(0), Leave(0, Failing, false)];
  }

  const TwoProbes := Config(1, 1, 10, 2)
  const Succeeding := Returned(false, false)
  const Abandoned := Returned(true, true)

  /** Two probes are admitted; the success of one closes the breaker, and then the caller of the other
      cancels it. */
  const LateProbe := [Enter(0), Leave(0, Failing, false), Tick(10), Enter(1), Enter(2),
                      Leave(1, Succeeding, false), Leave(2, Abandoned, false)]

  const OpenedAtOnce := System(Circuit(Open, 0, 0, 0, Some(0)), 0, map[], [], 0, 0, 0, [Change(Closed, Open, false)])
  const OneProbe := System(Circuit(HalfOpen, 0, 0, 1, Some(0)), 10, map[1 := true], [], 1, 0, 0,
                           [Change(Closed, Open, false), Change(Open, HalfOpen, false)])
  const HalfWay := System(Circuit(HalfOpen, 0, 0, 2, Some(0)), 10, map[1 := true, 2 := true], [], 2, 0, 0,
                          [Change(Closed, Open, false), Change(Open, HalfOpen, false)])
  const Recovered := System(Circuit(Closed, 0, 0, 0, Some(0)), 10, map[2 := true], [], 0, 0, 1,
                            HalfWay.log + [Change(HalfOpen, Closed, false)])
  const Overdrawn := System(Circuit(Closed, 0, 0, -1, Some(0)), 10, map[], [], 0, 1, 1, Recovered.log)

  lemma TripsAtOnce()
    ensures Run(TwoProbes, Start, LateProbe[..2], OpenedAtOnce)
  {
    var s1 := Next(TwoProbes, Start, Enter(0));
    assert s1.inflight - {0} == map[] && Probes(map[]) == {};
    assert Next(TwoProbes, s1, Leave(0, Failing, false)) == OpenedAtOnce;
    RunSnoc(TwoProbes, Start, [], Start, Enter(0));
    assert [] + [Enter(0)] == LateProbe[..1];
    RunSnoc(TwoProbes, Start, LateProbe[..1], s1, Leave(0, Failing, false));
    assert LateProbe[..1] + [Leave(0, Failing, false)] == LateProbe[..2];
  }

  lemma OneProbeEnters()
    ensures Run(TwoProbes, Start, LateProbe[..4], OneProbe)
  {
    TripsAtOnce();
    var waited := Next(TwoProbes, OpenedAtOnce, Tick(10));
    assert Probes(map[]) == {};
    assert Next(TwoProbes, waited, Enter(1)) == OneProbe;
    RunSnoc(TwoProbes, Start, LateProbe[..2], OpenedAtOnce, Tick(10));
    assert LateProbe[..2] + [Tick(10)] == LateProbe[..3];
    RunSnoc(TwoProbes, Start, LateProbe[..3], waited, Enter(1));
    assert LateProbe[..3] + [Enter(1)] == LateProbe[..4];
  }

  lemma BothProbesEnter()
    ensures Run(TwoProbes, Start, LateProbe[..5], HalfWay)
  {
    OneProbeEnters();
    assert OneProbe.inflight[2 := true] == HalfWay.inflight;
    assert Next(TwoProbes, OneProbe, Enter(2)) == HalfWay;
    RunSnoc(TwoProbes, Start, LateProbe[..4], OneProbe, Enter(2));
    assert LateProbe[..4] + [Enter(2)] == LateProbe[..5];
  }

  lemma OneProbeCloses()
    ensures Run(TwoProbes, Start, LateProbe[..6], Recovered)
  {
    BothProbesEnter();
    assert HalfWay.inflight - {1} == map[2 := true] && Probes(map[2 := true]) == {2};
    assert Next(TwoProbes, HalfWay, Leave(1, Succeeding, false)) == Recovered;
    RunSnoc(TwoProbes, Start, LateProbe[..5], HalfWay, Leave(1, Succeeding, false));
    assert LateProbe[..5] + [Leave(1, Succeeding, false)] == LateProbe[..6];
  }

  /** A reachable Closed breaker without any failure streak whose slot counter is below zero, and
      Reset keeps it there. */
  lemma ResetKeepsNegativeSlots()
    ensures Sane(TwoProbes) && Run(TwoProbes, Start, LateProbe, Overdrawn)
    ensures Next(TwoProbes, Overdrawn, Reset) == Overdrawn
    ensures Overdrawn.c.failureCount == 0 && Overdrawn.c.halfOpen == -1
  {
    OneProbeCloses();
    assert Recovered.inflight - {2} == map[];
    assert Next(TwoProbes, Recovered, Leave(2, Abandoned, false)) == Overdrawn;
    RunSnoc(TwoProbes, Start, LateProbe[..6], Recovered, Leave(2, Abandoned, false));
    assert LateProbe[..6] + [Leave(2, Abandoned, false)] == LateProbe;
  }

  // ---------------------------------------------------------------------------------------------
  // The open window
  // ---------------------------------------------------------------------------------------------

  /** lastFailureTime is the time of the latest failure recorded in the run, whoever reported it and
      in whatever phase. */
  lemma {:induction false} LastFailureIsLatest(cfg: Config, s: System, steps: seq<Step>, t: System)
    requires Run(cfg, s, steps, t)
    ensures t.c.lastFailure == LatestFailure(steps, s.clock, s.c.lastFailure)
    decreases |steps|
  {
    if steps != [] {
      LastFailureIsLatest(cfg, Next(cfg, s, steps[0]), steps[1..], t);
    }
  }

  /** No Reset, and every attempt to enter or to query happens within Timeout of the latest failure
      recorded by then. */
  ghost predicate Early(cfg: Config, steps: seq<Step>, clock: int, latest: int)
    decreases |steps|
  {
    steps == [] ||
    match steps[0]
    case Tick(now) => Early(cfg, steps[1..], now, latest)
    case Enter(_) => clock - latest < cfg.timeout && Early(cfg, steps[1..], clock, latest)
    case Leave(_, end, ctxCanceled) =>
      Early(cfg, steps[1..], clock, if Judge(end, ctxCanceled).Failure? then clock else latest)
    case Query => clock - latest < cfg.timeout && Early(cfg, steps[1..], clock, latest)
    case Reset => false
  }

  /** The open window, over a whole run: once open, and without Reset, the breaker admits nobody and
      stays open until Timeout has elapsed since the latest recorded failure, counting the failures
      of earlier calls that finish while it is open. */
  lemma {:induction false} OpenWindow(cfg: Config, s: System, steps: seq<Step>, t: System, latest: int)
    requires Sane(cfg) && s.c.phase.Open? && s.c.lastFailure == Some(latest)
    requires Run(cfg, s, steps, t) && Early(cfg, steps, s.clock, latest)
    ensures t.c.phase.Open? && t.log == s.log
    ensures t.inflight.Keys <= s.inflight.Keys
    decreases |steps|
  {
    if steps != [] {
      var s' := Next(cfg, s, steps[0]);
      var latest' := if steps[0].Leave? && Judge(steps[0].end, steps[0].ctxCanceled).Failure? then s.clock else latest;
      OpenWindow(cfg, s', steps[1..], t, latest');
    }
  }

  /** The end of the window, exactly: an open breaker admits a caller, as the first probe of a
      half-open phase, if and only if Timeout has elapsed since the latest failure of the run. */
  lemma OpenAdmitsIffTimedOut(cfg: Config, steps: seq<Step>, s: System, id: nat)
    requires Sane(cfg) && Run(cfg, Start, steps, s) && s.c.phase.Open? && id !in s.inflight
    ensures LatestFailure(steps, 0, None).Some?
    ensures var latest := LatestFailure(steps, 0, None).value;
            var t := Next(cfg, s, Enter(id));
            if s.clock - latest >= cfg.timeout then
              t.c.phase.HalfOpen? && t.inflight == s.inflight[id := true] && t.c.halfOpen == 1
            else
              t == s && Decide(cfg, CurrentState(cfg, s.c, s.clock)) == CircuitOpen
    ensures var latest := LatestFailure(steps, 0, None).value;
            Next(cfg, s, Query).c.phase == if s.clock - latest >= cfg.timeout then HalfOpen else Open
  {
    StartInv(cfg);
    RunInv(cfg, Start, steps, s);
    LastFailureIsLatest(cfg, Start, steps, s);
  }
}
