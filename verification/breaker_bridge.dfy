/** How the two views of the breaker fit together: a call that runs alone does exactly
    what the sequential machine does, so every sequential history is one of the
    interleavings. */
module BreakerBridge {
  import opened BreakerHistory
  import opened BreakerInterleaved
  import opened BreakerRuns
  import opened Tally

  function Core(g: Shared): Counters {
    Counters(g.state, g.failures, g.successes, g.openedAt)
  }

  /** The call has read the clock to see whether the timeout is over, if it had to. */
  predicate ReadStart(pc: Pc) {
    !pc.LoadState? && !pc.LoadOpenedAt?
  }

  /** The clock a call reads: its start before fn, its finish afterwards. */
  function Clock(pc: Pc, call: Call): int {
    if ReadStart(pc) then call.finish else call.start
  }

  /** What call `id` makes of the shared state if it runs from `pc` to its end undisturbed. */
  function Solo(cfg: Config, g: Shared, pc: Pc, call: Call): (Shared, Verdict)
    decreases Remaining(pc)
  {
    if pc.Done? then (g, pc.verdict)
    else
      WaitFree(cfg, g, 0, pc, Clock(pc, call), call.ok);
      var o := Effect(cfg, g, 0, pc, Clock(pc, call), call.ok);
      Solo(cfg, o.shared, o.pc, call)
  }

  lemma SoloSucceeds(cfg: Config, g: Shared, call: Call)
    requires g.state == Closed && call.ok
    ensures Solo(cfg, g, LoadState, call) == (g.(failures := 0), Returned(true))
  {
  }

  lemma SoloFails(cfg: Config, g: Shared, call: Call)
    requires g.state == Closed && !call.ok && g.failures + 1 < cfg.failureThreshold
    ensures Solo(cfg, g, LoadState, call) == (g.(failures := g.failures + 1), Returned(false))
  {
  }

  lemma SoloTrips(cfg: Config, g: Shared, call: Call)
    requires g.state == Closed && !call.ok && g.failures + 1 >= cfg.failureThreshold
    ensures Solo(cfg, g, LoadState, call) ==
            (g.(state := Open, failures := g.failures + 1, openedAt := call.finish, gauge := Open), Returned(false))
  {
  }

  lemma SoloProbeCloses(cfg: Config, g: Shared, call: Call)
    requires g.state == HalfOpen && g.inFlight == 0 && call.ok && g.successes + 1 >= cfg.successThreshold
    ensures Solo(cfg, g, TakeSlot, call) ==
            (g.(state := Closed, failures := 0, successes := 0, gauge := Closed), Returned(true))
  {
  }

  lemma SoloProbeCounts(cfg: Config, g: Shared, call: Call)
    requires g.state == HalfOpen && g.inFlight == 0 && call.ok && g.successes + 1 < cfg.successThreshold
    ensures Solo(cfg, g, TakeSlot, call) == (g.(successes := g.successes + 1), Returned(true))
  {
  }

  lemma SoloProbeFails(cfg: Config, g: Shared, call: Call)
    requires g.state == HalfOpen && g.inFlight == 0 && !call.ok
    ensures Solo(cfg, g, TakeSlot, call) ==
            (g.(state := Open, openedAt := call.finish, successes := 0, gauge := Open), Returned(false))
  {
  }

  /** A call that finds the breaker Open and the timeout over takes it to HalfOpen. */
  lemma SoloToProbe(cfg: Config, g: Shared, call: Call)
    requires g.state == Open && call.start - g.openedAt >= cfg.openTimeout
    ensures Solo(cfg, g, LoadState, call) == Solo(cfg, g.(state := HalfOpen, gauge := HalfOpen), TakeSlot, call)
  {
  }

  /** The gauge is right or about to be written. */
  ghost predicate GaugeReady(cfg: Config, g: Shared, call: Call) {
    g.gauge == g.state || (g.state == Open && Admits(cfg, Core(g), call))
  }

  /** One step of the sequential machine, with its verdict. */
  ghost predicate IsStep(cfg: Config, g: Shared, call: Call, g': Shared, v: Verdict) {
    && Core(g') == Step(cfg, Core(g), call) && g'.inFlight == 0
    && v == (if Admits(cfg, Core(g), call) then Returned(call.ok) else Rejected)
    && (GaugeReady(cfg, g, call) ==> g'.gauge == g'.state)
  }

  lemma SoloWhenClosed(cfg: Config, g: Shared, call: Call)
    requires g.state == Closed && g.inFlight == 0
    ensures var (g', v) := Solo(cfg, g, LoadState, call); IsStep(cfg, g, call, g', v)
  {
    if call.ok {
      SoloSucceeds(cfg, g, call);
    } else if g.failures + 1 < cfg.failureThreshold {
      SoloFails(cfg, g, call);
    } else {
      SoloTrips(cfg, g, call);
    }
  }

  lemma SoloWhenHalfOpen(cfg: Config, g: Shared, call: Call)
    requires g.state == HalfOpen && g.inFlight == 0
    ensures var (g', v) := Solo(cfg, g, TakeSlot, call); IsStep(cfg, g, call, g', v)
    ensures Solo(cfg, g, LoadState, call) == Solo(cfg, g, TakeSlot, call)
  {
    if !call.ok {
      SoloProbeFails(cfg, g, call);
    } else if g.successes + 1 < cfg.successThreshold {
      SoloProbeCounts(cfg, g, call);
    } else {
      SoloProbeCloses(cfg, g, call);
    }
  }

  /** A call that is not overlapped by another, and finds the slot free, performs one step of
      the sequential machine, reports it to the gauge, and leaves the slot free. */
  lemma SoloIsStep(cfg: Config, g: Shared, call: Call)
    requires g.inFlight == 0
    ensures var (g', v) := Solo(cfg, g, LoadState, call); IsStep(cfg, g, call, g', v)
  {
    match g.state
    case Closed => SoloWhenClosed(cfg, g, call);
    case HalfOpen => SoloWhenHalfOpen(cfg, g, call);
    case Open =>
      if Admits(cfg, Core(g), call) {
        SoloToProbe(cfg, g, call);
        SoloWhenHalfOpen(cfg, g.(state := HalfOpen, gauge := HalfOpen), call);
      } else {
        assert Solo(cfg, g, LoadState, call) == (g, Rejected);
      }
  }

  lemma ReachesNext(cfg: Config, actions: seq<Action>, s: System, a: Action)
    requires Reaches(cfg, actions, s) && Enabled(s, a)
    ensures Reaches(cfg, actions + [a], Apply(cfg, s, a))
  {
    assert (actions + [a])[..|actions|] == actions;
  }

  /** The next operation of a call, at the clock and with the outcome of fn that are its own. */
  lemma SoloOperation(cfg: Config, actions: seq<Action>, s: System, id: nat, call: Call, m: nat)
    returns (actions': seq<Action>, s': System)
    requires Reaches(cfg, actions, s) && id in s.calls && !s.calls[id].Done? && |InProgress(s)| <= m
    ensures Reaches(cfg, actions', s') && |InProgress(s')| <= m
    ensures id in s'.calls && s'.calls == s.calls[id := s'.calls[id]]
    ensures Remaining(s'.calls[id]) < Remaining(s.calls[id])
    ensures Solo(cfg, s'.shared, s'.calls[id], call) == Solo(cfg, s.shared, s.calls[id], call)
    ensures Clock(s.calls[id], call) == call.start || s'.calls[id].Done? || Clock(s'.calls[id], call) == call.finish
    ensures GoesOn(cfg, actions, actions', Clock(s.calls[id], call), Clock(s.calls[id], call), m)
  {
    var pc, t := s.calls[id], Clock(s.calls[id], call);
    var a := Advance(id, t, call.ok);
    actions', s' := actions + [a], Apply(cfg, s, a);
    ReachesNext(cfg, actions, s, a);
    WaitFree(cfg, s.shared, id, pc, t, call.ok);
    EffectIgnoresId(cfg, s.shared, id, pc, t, call.ok);
    StaysInProgress(s, id, s'.calls[id], s', m);
    GoesOnByOne(cfg, actions, a, s', t, t, m);
  }

  /** Letting one call run to its end is a run of the system. */
  lemma {:induction false} SoloReaches(cfg: Config, actions: seq<Action>, s: System, id: nat, call: Call, m: nat)
    returns (actions': seq<Action>, s': System)
    requires Reaches(cfg, actions, s) && id in s.calls && |InProgress(s)| <= m
    ensures Reaches(cfg, actions', s')
    ensures s'.calls == s.calls[id := Done(Solo(cfg, s.shared, s.calls[id], call).1)]
    ensures s'.shared == Solo(cfg, s.shared, s.calls[id], call).0
    ensures call.start <= call.finish ==> GoesOn(cfg, actions, actions', Clock(s.calls[id], call), call.finish, m)
    decreases Remaining(s.calls[id])
  {
    if s.calls[id].Done? {
      assert s.calls[id := s.calls[id]] == s.calls;
      return actions, s;
    }
    var t := Clock(s.calls[id], call);
    var middle, next := SoloOperation(cfg, actions, s, id, call, m);
    actions', s' := SoloReaches(cfg, middle, next, id, call, m);
    if call.start <= call.finish {
      GoesOnFurther(cfg, actions, middle, actions', t, t, Clock(next.calls[id], call), call.finish, m);
    }
  }

  /** A call in progress that moves adds nobody. */
  lemma StaysInProgress(s: System, id: nat, pc: Pc, t: System, m: nat)
    requires id in InProgress(s) && t.calls == s.calls[id := pc] && |InProgress(s)| <= m
    ensures |InProgress(t)| <= m
  {
    ProgressUpdate(s, id, pc, t);
    SubsetSmaller(InProgress(t), InProgress(s));
  }

  lemma EffectIgnoresId(cfg: Config, g: Shared, id: nat, pc: Pc, now: int, ok: bool)
    ensures Effect(cfg, g, id, pc, now, ok).shared == Effect(cfg, g, 0, pc, now, ok).shared
    ensures Effect(cfg, g, id, pc, now, ok).pc == Effect(cfg, g, 0, pc, now, ok).pc
  {
  }

  /** One whole call on its own, while whoever else has begun stands still. */
  lemma SoloCall(cfg: Config, actions: seq<Action>, s: System, id: nat, call: Call, m: nat)
    returns (actions': seq<Action>, s': System)
    requires Reaches(cfg, actions, s) && id !in s.calls && s.shared.inFlight == 0
    requires |InProgress(s)| < m
    ensures Reaches(cfg, actions', s')
    ensures call.start <= call.finish ==> GoesOn(cfg, actions, actions', call.start, call.finish, m)
    ensures s'.calls == s.calls[id := Done(if Admits(cfg, Core(s.shared), call) then Returned(call.ok) else Rejected)]
    ensures Core(s'.shared) == Step(cfg, Core(s.shared), call) && s'.shared.inFlight == 0
    ensures GaugeReady(cfg, s.shared, call) ==> s'.shared.gauge == s'.shared.state
  {
    var begun, t := BeginCall(cfg, actions, s, id, call.start, m);
    SoloIsStep(cfg, s.shared, call);
    actions', s' := SoloReaches(cfg, begun, t, id, call, m);
    if call.start <= call.finish {
      GoesOnFurther(cfg, actions, begun, actions', call.start, call.start, call.start, call.finish, m);
    }
  }

  lemma BeginCall(cfg: Config, actions: seq<Action>, s: System, id: nat, now: int, m: nat)
    returns (actions': seq<Action>, s': System)
    requires Reaches(cfg, actions, s) && id !in s.calls && |InProgress(s)| < m
    ensures Reaches(cfg, actions', s') && GoesOn(cfg, actions, actions', now, now, m)
    ensures s' == s.(calls := s.calls[id := LoadState]) && |InProgress(s')| <= m
  {
    actions', s' := actions + [Begin(id)], s.(calls := s.calls[id := LoadState]);
    ReachesNext(cfg, actions, s, Begin(id));
    ProgressUpdate(s, id, LoadState, s');
    GoesOnByOne(cfg, actions, Begin(id), s', now, now, m);
  }

  /** The system is at rest, with the counters and the verdicts of the sequential machine and
      the gauge showing the state. */
  ghost predicate Plays(cfg: Config, calls: seq<Call>, s: System) {
    && Core(s.shared) == Run(cfg, calls)
    && s.shared.inFlight == 0 && s.shared.gauge == s.shared.state
    && Verdicts(cfg, calls, s)
  }

  /** Every sequential history is an interleaving. If the calls come one after the other, the
      run reads a clock that never goes back and never has two calls in progress. */
  lemma {:induction false} SequentialRunsAreInterleavings(cfg: Config, calls: seq<Call>)
    returns (actions: seq<Action>, s: System)
    ensures Reaches(cfg, actions, s) && Quiescent(s) && Plays(cfg, calls, s)
    ensures calls == [] ==> actions == []
    ensures Sequential(calls) && calls != [] ==> Paced(cfg, actions, calls[0].start, calls[|calls| - 1].finish, 1)
  {
    if calls == [] {
      return [], START;
    }
    var shorter, before := SequentialRunsAreInterleavings(cfg, calls[..|calls| - 1]);
    actions, s := PlaysOneMore(cfg, calls, shorter, before);
    if Sequential(calls) {
      PaceOfOneMore(cfg, calls, shorter, actions);
    }
  }

  lemma PlaysOneMore(cfg: Config, calls: seq<Call>, shorter: seq<Action>, before: System)
    returns (actions: seq<Action>, s: System)
    requires calls != [] && Reaches(cfg, shorter, before) && Quiescent(before)
    requires Plays(cfg, calls[..|calls| - 1], before)
    ensures Reaches(cfg, actions, s) && Quiescent(s) && Plays(cfg, calls, s)
    ensures var call := calls[|calls| - 1];
            call.start <= call.finish ==> GoesOn(cfg, shorter, actions, call.start, call.finish, 1)
  {
    assert InProgress(before) == {};
    actions, s := SoloCall(cfg, shorter, before, |calls| - 1, calls[|calls| - 1], 1);
    VerdictsGrow(cfg, calls, before, s);
  }

  lemma PaceOfOneMore(cfg: Config, calls: seq<Call>, shorter: seq<Action>, actions: seq<Action>)
    requires calls != [] && Sequential(calls)
    requires if |calls| == 1 then shorter == []
             else Paced(cfg, shorter, calls[0].start, calls[|calls| - 2].finish, 1)
    requires GoesOn(cfg, shorter, actions, calls[|calls| - 1].start, calls[|calls| - 1].finish, 1)
    ensures Paced(cfg, actions, calls[0].start, calls[|calls| - 1].finish, 1)
  {
    var from, last := calls[0].start, calls[|calls| - 1];
    if |calls| == 1 {
      NothingPaced(cfg, from, from, 1);
      PacedFurther(cfg, shorter, actions, from, from, last.start, last.finish, 1);
    } else {
      PacedFurther(cfg, shorter, actions, from, calls[|calls| - 2].finish, last.start, last.finish, 1);
    }
  }

  ghost function VerdictOf(cfg: Config, calls: seq<Call>, i: nat): Verdict
    requires i < |calls|
  {
    if Ran(cfg, calls, i) then Returned(calls[i].ok) else Rejected
  }

  /** Call i of the history is call i of the system, and it has the sequential verdict. */
  ghost predicate Verdicts(cfg: Config, calls: seq<Call>, s: System) {
    && (forall id: nat :: id in s.calls <==> id < |calls|)
    && (forall i: nat :: i < |calls| ==> s.calls[i] == Done(VerdictOf(cfg, calls, i)))
  }

  lemma VerdictStable(cfg: Config, calls: seq<Call>, n: nat, i: nat)
    requires i < n <= |calls|
    ensures VerdictOf(cfg, calls[..n], i) == VerdictOf(cfg, calls, i)
  {
    assert calls[..n][..i] == calls[..i];
  }

  lemma VerdictsGrow(cfg: Config, calls: seq<Call>, before: System, s: System)
    requires |calls| > 0
    requires Verdicts(cfg, calls[..|calls| - 1], before)
    requires s.calls == before.calls[|calls| - 1 := Done(VerdictOf(cfg, calls, |calls| - 1))]
    ensures Verdicts(cfg, calls, s)
  {
    forall i: nat | i < |calls| ensures s.calls[i] == Done(VerdictOf(cfg, calls, i)) {
      if i < |calls| - 1 {
        VerdictStable(cfg, calls, |calls| - 1, i);
      }
    }
  }
}
