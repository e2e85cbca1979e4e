/** What overlapping calls can do: for every configuration, runs with two calls in progress,
    on a clock that never goes back, in which each guarantee is lost; so a run keeps the
    guarantees for sure exactly if its calls do not overlap. */
module BreakerOverlaps {
  import opened BreakerHistory
  import opened BreakerInterleaved
  import opened BreakerRuns
  import opened BreakerBridge
  import opened BreakerSerial

  // ----- The same call, over and over -----

  function Repeat(cfg: Config, c: Counters, call: Call, n: nat): Counters {
    if n == 0 then c else Step(cfg, Repeat(cfg, c, call, n - 1), call)
  }

  lemma {:induction false} FailuresAddUp(cfg: Config, c: Counters, call: Call, n: nat)
    requires c.state == Closed && !call.ok && c.failures + n <= cfg.failureThreshold
    ensures Repeat(cfg, c, call, n) ==
            if n > 0 && c.failures + n == cfg.failureThreshold then
              c.(state := Open, failures := c.failures + n, openedAt := call.finish)
            else c.(failures := c.failures + n)
  {
    if n > 0 {
      FailuresAddUp(cfg, c, call, n - 1);
    }
  }

  lemma {:induction false} SuccessesAddUp(cfg: Config, c: Counters, call: Call, n: nat)
    requires c.state != Closed && Admits(cfg, c, call) && call.ok && c.successes + n <= cfg.successThreshold
    ensures Repeat(cfg, c, call, n) ==
            if n == 0 then c
            else if c.successes + n == cfg.successThreshold then c.(state := Closed, failures := 0, successes := 0)
            else c.(state := HalfOpen, successes := c.successes + n)
  {
    if n > 0 {
      SuccessesAddUp(cfg, c, call, n - 1);
    }
  }

  ghost predicate NoneFrom(s: System, first: nat) {
    forall id :: id in s.calls ==> id < first
  }

  /** n calls from `first` on have joined and ended, while those in progress stand still. */
  ghost predicate Joined(s: System, s': System, first: nat, n: nat) {
    && InProgress(s') == InProgress(s)
    && (forall id :: id in InProgress(s) ==> s'.calls[id] == s.calls[id])
    && (forall id :: id in s'.calls <==> id in s.calls || first <= id < first + n)
  }

  lemma JoinedOneMore(s: System, t: System, s': System, first: nat, n: nat, verdict: Verdict)
    requires NoneFrom(s, first) && Joined(s, t, first, n) && s'.calls == t.calls[first + n := Done(verdict)]
    ensures Joined(s, s', first, n + 1) && NoneFrom(s', first + n + 1)
  {
    ProgressUpdate(t, first + n, Done(verdict), s');
    assert first + n !in InProgress(t);
  }

  /** Equal calls, one after the other, while whoever else has begun stands still. */
  lemma {:induction false} SoloCalls(
    cfg: Config, actions: seq<Action>, s: System, first: nat, now: int, ok: bool, n: nat, m: nat)
    returns (actions': seq<Action>, s': System)
    requires Reaches(cfg, actions, s) && NoneFrom(s, first) && |InProgress(s)| < m && s.shared.inFlight == 0
    ensures Reaches(cfg, actions', s') && GoesOn(cfg, actions, actions', now, now, m)
    ensures Joined(s, s', first, n) && NoneFrom(s', first + n)
    ensures Core(s'.shared) == Repeat(cfg, Core(s.shared), Call(now, now, ok), n) && s'.shared.inFlight == 0
    ensures GaugeReady(cfg, s.shared, Call(now, now, ok)) && (n > 0 || s.shared.gauge == s.shared.state) ==>
              s'.shared.gauge == s'.shared.state
    ensures n == 0 ==> s' == s
  {
    if n == 0 {
      return actions, s;
    }
    var middle, t := SoloCalls(cfg, actions, s, first, now, ok, n - 1, m);
    actions', s' := SoloCall(cfg, middle, t, first + n - 1, Call(now, now, ok), m);
    JoinedOneMore(s, t, s', first, n - 1, s'.calls[first + n - 1].verdict);
    GoesOnFurther(cfg, actions, middle, actions', now, now, now, now, m);
  }

  // ----- Several operations of one call -----

  /** What one call sees of the system. */
  datatype View = View(shared: Shared, pc: Pc, log: seq<Event>)

  function Once(cfg: Config, v: View, id: nat, now: int, ok: bool): View {
    var o := Effect(cfg, v.shared, id, v.pc, now, ok);
    View(o.shared, o.pc, if o.event.Some? then v.log + [o.event.value] else v.log)
  }

  /** What k operations of the call do while the others stand still. */
  function Several(cfg: Config, v: View, id: nat, now: int, ok: bool, k: nat): View
    decreases k
  {
    if k == 0 then v else Several(cfg, Once(cfg, v, id, now, ok), id, now, ok, k - 1)
  }

  function ViewOf(s: System, id: nat): View
    requires id in s.calls
  {
    View(s.shared, s.calls[id], s.log)
  }

  /** The system after operations of one call. */
  function Seen(s: System, id: nat, v: View): System {
    System(v.shared, s.calls[id := v.pc], v.log)
  }

  lemma OneStep(cfg: Config, actions: seq<Action>, s: System, id: nat, now: int, ok: bool, m: nat)
    returns (actions': seq<Action>, s': System)
    requires Reaches(cfg, actions, s) && id in s.calls && |InProgress(s)| <= m
    ensures Reaches(cfg, actions', s') && GoesOn(cfg, actions, actions', now, now, m) && |InProgress(s')| <= m
    ensures s' == Seen(s, id, Once(cfg, ViewOf(s, id), id, now, ok))
  {
    if s.calls[id].Done? {
      assert s.calls[id := s.calls[id]] == s.calls;
      return actions, s;
    }
    var a := Advance(id, now, ok);
    actions', s' := actions + [a], Apply(cfg, s, a);
    ReachesNext(cfg, actions, s, a);
    StaysInProgress(s, id, s'.calls[id], s', m);
    GoesOnByOne(cfg, actions, a, s', now, now, m);
  }

  lemma SeenOnceMore(cfg: Config, s: System, id: nat, now: int, ok: bool, k: nat, t: System)
    requires k > 0 && id in s.calls && t == Seen(s, id, Once(cfg, ViewOf(s, id), id, now, ok))
    ensures Seen(t, id, Several(cfg, ViewOf(t, id), id, now, ok, k - 1)) ==
            Seen(s, id, Several(cfg, ViewOf(s, id), id, now, ok, k))
  {
    assert ViewOf(t, id) == Once(cfg, ViewOf(s, id), id, now, ok);
  }

  lemma SeenNow(s: System, id: nat)
    requires id in s.calls
    ensures Seen(s, id, ViewOf(s, id)) == s
  {
    assert s.calls[id := s.calls[id]] == s.calls;
  }

  /** The call goes through k operations at this instant. */
  lemma {:induction false} Performs(
    cfg: Config, actions: seq<Action>, s: System, id: nat, now: int, ok: bool, k: nat, m: nat)
    returns (actions': seq<Action>, s': System)
    requires Reaches(cfg, actions, s) && id in s.calls && |InProgress(s)| <= m
    ensures Reaches(cfg, actions', s') && GoesOn(cfg, actions, actions', now, now, m)
    ensures s' == Seen(s, id, Several(cfg, ViewOf(s, id), id, now, ok, k))
    ensures |InProgress(s')| <= m
    decreases k
  {
    actions', s' := actions, s;
    if k == 0 {
      SeenNow(s, id);
    } else {
      var middle, t := OneStep(cfg, actions, s, id, now, ok, m);
      SeenOnceMore(cfg, s, id, now, ok, k, t);
      actions', s' := Performs(cfg, middle, t, id, now, ok, k - 1, m);
      GoesOnFurther(cfg, actions, middle, actions', now, now, now, now, m);
    }
  }

  /** A new call goes through its first k operations. */
  lemma Begins(cfg: Config, actions: seq<Action>, s: System, id: nat, now: int, ok: bool, k: nat, m: nat)
    returns (actions': seq<Action>, s': System)
    requires Reaches(cfg, actions, s) && id !in s.calls && |InProgress(s)| < m
    ensures Reaches(cfg, actions', s') && GoesOn(cfg, actions, actions', now, now, m)
    ensures s' == Seen(s, id, Several(cfg, View(s.shared, LoadState, s.log), id, now, ok, k))
    ensures |InProgress(s')| <= m
  {
    var begun, t := BeginCall(cfg, actions, s, id, now, m);
    actions', s' := Performs(cfg, begun, t, id, now, ok, k, m);
    GoesOnFurther(cfg, actions, begun, actions', now, now, now, now, m);
  }

  // ----- Open does not last -----

  /** A failing call that has the last failure to add, up to the trip. */
  lemma Trips(cfg: Config, actions: seq<Action>, s: System, id: nat, now: int, m: nat)
    returns (actions': seq<Action>, s': System)
    requires Reaches(cfg, actions, s) && id !in s.calls && |InProgress(s)| < m
    requires s.shared.state == Closed && s.shared.failures + 1 == cfg.failureThreshold
    ensures Reaches(cfg, actions', s') && GoesOn(cfg, actions, actions', now, now, m)
    ensures s'.shared == s.shared.(state := Open, failures := cfg.failureThreshold)
    ensures s'.calls == s.calls[id := StampTrip]
    ensures s'.log == s.log + [Called(id, false)] + [Bumped(id, Failures)] + [Moved(id, Closed, Open)]
  {
    assert Several(cfg, View(s.shared, LoadState, s.log), id, now, false, 4) ==
           View(s.shared.(state := Open, failures := cfg.failureThreshold), StampTrip,
                s.log + [Called(id, false)] + [Bumped(id, Failures)] + [Moved(id, Closed, Open)]);
    actions', s' := Begins(cfg, actions, s, id, now, false, 4, m);
  }

  /** The breaker just after the trip by its first FailureThreshold failing calls. */
  lemma FirstTrip(cfg: Config, now: int) returns (actions: seq<Action>, s: System, trip: nat)
    requires Usable(cfg)
    ensures Reaches(cfg, actions, s) && Paced(cfg, actions, now, now, 2) && NoneFrom(s, trip + 1)
    ensures s.shared == START.shared.(state := Open, failures := cfg.failureThreshold)
    ensures InProgress(s) == {trip} && s.calls[trip] == StampTrip
    ensures |s.log| > 0 && s.log[|s.log| - 1] == Moved(trip, Closed, Open)
  {
    trip := cfg.failureThreshold - 1;
    NothingPaced(cfg, now, now, 2);
    var before, t := SoloCalls(cfg, [], START, 0, now, false, trip, 2);
    FailuresAddUp(cfg, Core(START.shared), Call(now, now, false), trip);
    PacedFurther(cfg, [], before, now, now, now, now, 2);
    actions, s := Trips(cfg, before, t, trip, now, 2);
    ProgressUpdate(t, trip, StampTrip, s);
    PacedFurther(cfg, before, actions, now, now, now, now, 2);
  }

  /** A call that finds the breaker Open and the timeout over, up to its swap. */
  lemma Passes(cfg: Config, actions: seq<Action>, s: System, id: nat, now: int, m: nat)
    returns (actions': seq<Action>, s': System)
    requires Reaches(cfg, actions, s) && id !in s.calls && |InProgress(s)| < m
    requires s.shared.state == Open && now - s.shared.openedAt >= cfg.openTimeout
    ensures Reaches(cfg, actions', s') && GoesOn(cfg, actions, actions', now, now, m)
    ensures s' == s.(calls := s.calls[id := SwapToHalfOpen])
    ensures InProgress(s') == InProgress(s) + {id}
  {
    assert Several(cfg, View(s.shared, LoadState, s.log), id, now, true, 2) == View(s.shared, SwapToHalfOpen, s.log);
    actions', s' := Begins(cfg, actions, s, id, now, true, 2, m);
    ProgressUpdate(s, id, SwapToHalfOpen, s');
  }

  /** It takes the breaker to HalfOpen. */
  lemma TakesToHalfOpen(cfg: Config, actions: seq<Action>, s: System, id: nat, now: int, m: nat)
    returns (actions': seq<Action>, s': System)
    requires Reaches(cfg, actions, s) && id in s.calls && s.calls[id] == SwapToHalfOpen && |InProgress(s)| <= m
    requires s.shared.state == Open
    ensures Reaches(cfg, actions', s') && GoesOn(cfg, actions, actions', now, now, m)
    ensures s'.shared == s.shared.(state := HalfOpen, gauge := HalfOpen) && s'.calls == s.calls[id := TakeSlot]
    ensures s'.log == s.log + [Moved(id, Open, HalfOpen)] + [Recorded(id, Open, HalfOpen)]
  {
    assert Several(cfg, View(s.shared, SwapToHalfOpen, s.log), id, now, true, 3) ==
           View(s.shared.(state := HalfOpen, gauge := HalfOpen), TakeSlot,
                s.log + [Moved(id, Open, HalfOpen)] + [Recorded(id, Open, HalfOpen)]);
    actions', s' := Performs(cfg, actions, s, id, now, true, 3, m);
  }

  /** A call at the slot takes it, whatever the state, and succeeds. */
  lemma Succeeds(cfg: Config, actions: seq<Action>, s: System, id: nat, now: int, m: nat)
    returns (actions': seq<Action>, s': System)
    requires Reaches(cfg, actions, s) && id in s.calls && s.calls[id] == TakeSlot && |InProgress(s)| <= m
    requires s.shared.inFlight == 0
    ensures Reaches(cfg, actions', s') && GoesOn(cfg, actions, actions', now, now, m)
    ensures s'.shared == s.shared.(inFlight := 1, successes := s.shared.successes + 1)
    ensures s'.calls == s.calls[id :=
              if s'.shared.successes >= cfg.successThreshold then SwapToClosed else ReleaseSlot(true)]
    ensures s'.log == s.log + [Called(id, true)] + [Bumped(id, Successes)]
  {
    assert Several(cfg, View(s.shared, TakeSlot, s.log), id, now, true, 3) ==
           View(s.shared.(inFlight := 1, successes := s.shared.successes + 1),
                if s.shared.successes + 1 >= cfg.successThreshold then SwapToClosed else ReleaseSlot(true),
                s.log + [Called(id, true)] + [Bumped(id, Successes)]);
    actions', s' := Performs(cfg, actions, s, id, now, true, 3, m);
  }

  /** The instant of an opening is stored only after the circuit has opened, so under every
      configuration another call can be let through as a probe at the very instant of the
      trip: Open does not last OpenTimeout. */
  lemma OpenMayBeSkipped(cfg: Config, now: int) returns (actions: seq<Action>, s: System, trip: nat, probe: nat)
    requires Usable(cfg) && cfg.openTimeout <= now
    ensures Reaches(cfg, actions, s) && Paced(cfg, actions, now, now, 2)
    ensures |s.log| >= 5 && s.log[|s.log| - 5] == Moved(trip, Closed, Open)
    ensures s.log[|s.log| - 4] == Moved(probe, Open, HalfOpen) && s.log[|s.log| - 3] == Recorded(probe, Open, HalfOpen)
    ensures s.log[|s.log| - 2] == Called(probe, true) && s.log[|s.log| - 1] == Bumped(probe, Successes)
  {
    var a0, s0, a1, s1, a2, s2;
    a0, s0, trip := FirstTrip(cfg, now);
    probe := trip + 1;
    a1, s1 := Passes(cfg, a0, s0, probe, now, 2);
    PacedFurther(cfg, a0, a1, now, now, now, now, 2);
    AtMostNow(cfg, a1, s1, 2);
    a2, s2 := TakesToHalfOpen(cfg, a1, s1, probe, now, 2);
    PacedFurther(cfg, a1, a2, now, now, now, now, 2);
    AtMostNow(cfg, a2, s2, 2);
    actions, s := Succeeds(cfg, a2, s2, probe, now, 2);
    PacedFurther(cfg, a2, actions, now, now, now, now, 2);
  }

  // ----- The gauge is not the state -----

  /** The tripping call, from its swap up to its gauge write. */
  lemma Stamps(cfg: Config, actions: seq<Action>, s: System, id: nat, now: int, m: nat)
    returns (actions': seq<Action>, s': System)
    requires Reaches(cfg, actions, s) && id in s.calls && s.calls[id] == StampTrip && |InProgress(s)| <= m
    ensures Reaches(cfg, actions', s') && GoesOn(cfg, actions, actions', now, now, m)
    ensures s'.shared == s.shared.(openedAt := now) && s'.calls == s.calls[id := GaugeTrip]
    ensures InProgress(s') == InProgress(s)
  {
    assert Several(cfg, View(s.shared, StampTrip, s.log), id, now, false, 3) ==
           View(s.shared.(openedAt := now), GaugeTrip, s.log + [Recorded(id, Closed, Open)]);
    actions', s' := Performs(cfg, actions, s, id, now, false, 3, m);
    ProgressUpdate(s, id, GaugeTrip, s');
  }

  lemma WritesGauge(cfg: Config, actions: seq<Action>, s: System, id: nat, now: int, m: nat)
    returns (actions': seq<Action>, s': System)
    requires Reaches(cfg, actions, s) && id in s.calls && s.calls[id] == GaugeTrip && |InProgress(s)| <= m
    ensures Reaches(cfg, actions', s') && GoesOn(cfg, actions, actions', now, now, m)
    ensures s'.shared == s.shared.(gauge := Open) && InProgress(s') == InProgress(s) - {id}
  {
    actions', s' := OneStep(cfg, actions, s, id, now, false, m);
    ProgressUpdate(s, id, Done(Returned(false)), s');
  }

  /** Gauge writes trail the transitions, so under every configuration the gauge can show
      Open when the breaker is Closed and no call is in progress. */
  lemma GaugeMayBeStale(cfg: Config, now: int) returns (actions: seq<Action>, s: System)
    requires Usable(cfg)
    ensures Reaches(cfg, actions, s) && Paced(cfg, actions, now, now + cfg.openTimeout, 2)
    ensures InProgress(s) == {} && s.shared.state == Closed && s.shared.gauge == Open
  {
    var later := now + cfg.openTimeout;
    var a0, s0, trip := FirstTrip(cfg, now);
    var a1, s1 := Stamps(cfg, a0, s0, trip, now, 2);
    PacedFurther(cfg, a0, a1, now, now, now, now, 2);
    SuccessesAddUp(cfg, Core(s1.shared), Call(later, later, true), cfg.successThreshold);
    var a2, s2 := SoloCalls(cfg, a1, s1, trip + 1, later, true, cfg.successThreshold, 2);
    PacedFurther(cfg, a1, a2, now, now, later, later, 2);
    actions, s := WritesGauge(cfg, a2, s2, trip, later, 2);
    PacedFurther(cfg, a2, actions, now, later, later, later, 2);
  }

  // ----- A close need not be earned by its episode -----

  /** Calls that find the breaker Open and the timeout over, and come no further. */
  ghost predicate Waiting(s: System, first: nat, n: nat) {
    forall id :: first <= id < first + n ==> id in s.calls && s.calls[id] == SwapToHalfOpen
  }

  lemma {:induction false} Latecomers(
    cfg: Config, actions: seq<Action>, s: System, first: nat, now: int, n: nat, m: nat)
    returns (actions': seq<Action>, s': System)
    requires Reaches(cfg, actions, s) && NoneFrom(s, first) && |InProgress(s)| + n <= m
    requires s.shared.state == Open && now - s.shared.openedAt >= cfg.openTimeout
    ensures Reaches(cfg, actions', s') && GoesOn(cfg, actions, actions', now, now, m)
    ensures s'.shared == s.shared && NoneFrom(s', first + n) && Waiting(s', first, n)
    ensures |InProgress(s')| == |InProgress(s)| + n
  {
    if n == 0 {
      return actions, s;
    }
    var middle, t := Latecomers(cfg, actions, s, first, now, n - 1, m);
    actions', s' := Passes(cfg, middle, t, first + n - 1, now, m);
    WaitingOneMore(t, s', first, n - 1);
    GoesOnFurther(cfg, actions, middle, actions', now, now, now, now, m);
  }

  lemma WaitingOneMore(t: System, s': System, first: nat, n: nat)
    requires NoneFrom(t, first + n) && Waiting(t, first, n) && s'.calls == t.calls[first + n := SwapToHalfOpen]
    ensures NoneFrom(s', first + n + 1) && Waiting(s', first, n + 1) && |InProgress(s')| == |InProgress(t)| + 1
  {
    ProgressUpdate(t, first + n, SwapToHalfOpen, s');
    assert first + n !in InProgress(t);
  }

  /** A call that has lost the race to HalfOpen still probes, although the breaker has closed
      meanwhile, and its success is counted. */
  lemma LateProbe(cfg: Config, g: Shared, call: Call)
    requires g.state == Closed && g.inFlight == 0 && g.successes + 1 < cfg.successThreshold && call.ok
    ensures Solo(cfg, g, SwapToHalfOpen, call) == (g.(successes := g.successes + 1), Returned(true))
  {
  }

  lemma ProbesLate(cfg: Config, actions: seq<Action>, s: System, id: nat, now: int, m: nat)
    returns (actions': seq<Action>, s': System)
    requires Reaches(cfg, actions, s) && id in s.calls && s.calls[id] == SwapToHalfOpen && |InProgress(s)| <= m
    requires s.shared.state == Closed && s.shared.inFlight == 0 && s.shared.successes + 1 < cfg.successThreshold
    ensures Reaches(cfg, actions', s') && GoesOn(cfg, actions, actions', now, now, m)
    ensures s'.shared == s.shared.(successes := s.shared.successes + 1)
    ensures s'.calls == s.calls[id := Done(Returned(true))] && |InProgress(s')| == |InProgress(s)| - 1
  {
    LateProbe(cfg, s.shared, Call(now, now, true));
    actions', s' := SoloReaches(cfg, actions, s, id, Call(now, now, true), m);
    ProgressUpdate(s, id, Done(Returned(true)), s');
    assert id in InProgress(s);
  }

  /** All latecomers but the last probe while the breaker is Closed. */
  lemma {:induction false} LateProbes(cfg: Config, actions: seq<Action>, s: System, first: nat, now: int,
                                      late: nat, n: nat, m: nat)
    returns (actions': seq<Action>, s': System)
    requires n < late <= cfg.successThreshold && Reaches(cfg, actions, s) && Waiting(s, first, late)
    requires s.shared.state == Closed && s.shared.inFlight == 0 && s.shared.successes == 0 && |InProgress(s)| <= m
    ensures Reaches(cfg, actions', s') && GoesOn(cfg, actions, actions', now, now, m)
    ensures s'.shared == s.shared.(successes := n) && s'.calls.Keys == s.calls.Keys
    ensures Waiting(s', first + n, late - n) && |InProgress(s')| == |InProgress(s)| - n
  {
    if n == 0 {
      return actions, s;
    }
    var middle, t := LateProbes(cfg, actions, s, first, now, late, n - 1, m);
    actions', s' := ProbesLate(cfg, middle, t, first + n - 1, now, m);
    GoesOnFurther(cfg, actions, middle, actions', now, now, now, now, m);
  }

  /** A latecomer finds at its swap that the breaker is not Open, and comes to the slot. */
  lemma LosesRace(cfg: Config, actions: seq<Action>, s: System, id: nat, now: int, m: nat)
    returns (actions': seq<Action>, s': System)
    requires Reaches(cfg, actions, s) && id in s.calls && s.calls[id] == SwapToHalfOpen && |InProgress(s)| <= m
    requires s.shared.state != Open
    ensures Reaches(cfg, actions', s') && GoesOn(cfg, actions, actions', now, now, m)
    ensures s' == s.(calls := s.calls[id := TakeSlot]) && InProgress(s') == InProgress(s) && id in InProgress(s')
  {
    actions', s' := OneStep(cfg, actions, s, id, now, true, m);
    ProgressUpdate(s, id, TakeSlot, s');
  }

  /** The latecomers have probed, except the last, which has lost the race to HalfOpen. */
  lemma AllButOneProbe(cfg: Config, actions: seq<Action>, s: System, first: nat, now: int, late: nat, m: nat)
    returns (actions': seq<Action>, s': System)
    requires 1 <= late <= cfg.successThreshold && Reaches(cfg, actions, s) && Waiting(s, first, late)
    requires s.shared.state == Closed && s.shared.inFlight == 0 && s.shared.successes == 0
    requires |InProgress(s)| == late <= m
    ensures Reaches(cfg, actions', s') && GoesOn(cfg, actions, actions', now, now, m)
    ensures s'.shared == s.shared.(successes := late - 1) && s'.calls.Keys == s.calls.Keys
    ensures |InProgress(s')| == 1 && first + late - 1 in InProgress(s') && s'.calls[first + late - 1] == TakeSlot
  {
    var last := first + late - 1;
    var middle, t := LateProbes(cfg, actions, s, first, now, late, late - 1, m);
    actions', s' := LosesRace(cfg, middle, t, last, now, m);
    GoesOnFurther(cfg, actions, middle, actions', now, now, now, now, m);
  }

  /** The breaker has tripped and closed again after OpenTimeout, while `late` calls, which
      came when it was Open, have stood still. */
  lemma Overtaken(cfg: Config, now: int, late: nat) returns (actions: seq<Action>, s: System)
    requires Usable(cfg) && 1 <= late <= cfg.successThreshold
    ensures Reaches(cfg, actions, s) && Paced(cfg, actions, now, now + cfg.openTimeout, late + 1)
    ensures Waiting(s, cfg.failureThreshold, late) && |InProgress(s)| == late
    ensures NoneFrom(s, cfg.failureThreshold + late + cfg.successThreshold)
    ensures s.shared == START.shared.(openedAt := now)
  {
    var t, n, k, m := now + cfg.openTimeout, cfg.failureThreshold, cfg.successThreshold, late + 1;
    assert InProgress(START) == {};
    NothingPaced(cfg, now, now, m);
    FailuresAddUp(cfg, Core(START.shared), Call(now, now, false), n);
    var a0, s0 := SoloCalls(cfg, [], START, 0, now, false, n, m);
    PacedFurther(cfg, [], a0, now, now, now, now, m);
    var a1, s1 := Latecomers(cfg, a0, s0, n, t, late, m);
    PacedFurther(cfg, a0, a1, now, now, t, t, m);
    SuccessesAddUp(cfg, Core(s1.shared), Call(t, t, true), k);
    actions, s := SoloCalls(cfg, a1, s1, n + late, t, true, k, m);
    PacedFurther(cfg, a1, actions, now, t, t, t, m);
    forall id | n <= id < n + late ensures id in s.calls && s.calls[id] == SwapToHalfOpen {
      assert id in InProgress(s1);
    }
  }

  /** Failing calls, one after the other, open the breaker. */
  lemma FailuresOpen(cfg: Config, actions: seq<Action>, s: System, first: nat, now: int, m: nat)
    returns (actions': seq<Action>, s': System)
    requires Usable(cfg) && Reaches(cfg, actions, s) && NoneFrom(s, first) && |InProgress(s)| < m
    requires s.shared.state == Closed && s.shared.failures == 0 && s.shared.inFlight == 0
    ensures Reaches(cfg, actions', s') && GoesOn(cfg, actions, actions', now, now, m)
    ensures Joined(s, s', first, cfg.failureThreshold) && NoneFrom(s', first + cfg.failureThreshold)
    ensures s'.shared.state == Open && s'.shared.openedAt == now
    ensures s'.shared.inFlight == 0 && s'.shared.successes == s.shared.successes
  {
    FailuresAddUp(cfg, Core(s.shared), Call(now, now, false), cfg.failureThreshold);
    actions', s' := SoloCalls(cfg, actions, s, first, now, false, cfg.failureThreshold, m);
  }

  /** The breaker is Open for the second time, and the last latecomer of the first time is at
      the slot, with the successes of the others counted. */
  lemma SecondOpening(cfg: Config, now: int, late: nat) returns (actions: seq<Action>, s: System, last: nat, free: nat)
    requires Usable(cfg) && 1 <= late <= cfg.successThreshold
    ensures Reaches(cfg, actions, s) && Paced(cfg, actions, now, now + cfg.openTimeout, late + 1)
    ensures NoneFrom(s, free) && InProgress(s) == {last} && s.calls[last] == TakeSlot
    ensures s.shared.state == Open && s.shared.openedAt == now + cfg.openTimeout
    ensures s.shared.inFlight == 0 && s.shared.successes == late - 1
  {
    var t, n, m := now + cfg.openTimeout, cfg.failureThreshold, late + 1;
    var first := n + late + cfg.successThreshold;
    last, free := n + late - 1, first + n;
    var a0, s0 := Overtaken(cfg, now, late);
    var a1, s1 := AllButOneProbe(cfg, a0, s0, n, t, late, m);
    Alone(InProgress(s1), last);
    PacedFurther(cfg, a0, a1, now, t, t, t, m);
    actions, s := FailuresOpen(cfg, a1, s1, first, t, m);
    PacedFurther(cfg, a1, actions, now, t, t, t, m);
  }

  /** The last latecomer has added its success to those of the others, while Open. */
  lemma LeftOver(cfg: Config, now: int, late: nat) returns (actions: seq<Action>, s: System, last: nat, free: nat)
    requires Usable(cfg) && 1 <= late <= cfg.successThreshold
    ensures Reaches(cfg, actions, s) && Paced(cfg, actions, now, now + cfg.openTimeout, late + 1)
    ensures NoneFrom(s, free) && InProgress(s) == {last}
    ensures s.calls[last] == if late == cfg.successThreshold then SwapToClosed else ReleaseSlot(true)
    ensures s.shared.state == Open && s.shared.openedAt == now + cfg.openTimeout && s.shared.successes == late
  {
    var t := now + cfg.openTimeout;
    var before, s0;
    before, s0, last, free := SecondOpening(cfg, now, late);
    actions, s := Succeeds(cfg, before, s0, last, t, late + 1);
    PacedFurther(cfg, before, actions, now, t, t, t, late + 1);
    ProgressUpdate(s0, last, s.calls[last], s);
  }

  lemma Alone(ids: set<nat>, id: nat)
    requires |ids| == 1 && id in ids
    ensures ids == {id}
  {
    forall a | a in ids ensures a == id {
      OnlyOne(ids, a, id);
    }
  }

  /** The run ends with a close that n successes of its episode have preceded. */
  ghost predicate ClosesAfter(log: seq<Event>, n: nat) {
    log != [] && Closing(log[|log| - 1]) && EpisodeSuccesses(log[..|log| - 1]) == n
  }

  lemma LogNext(log: seq<Event>, e: Event)
    ensures EpisodeSuccesses(log + [e]) == CountedAfter(EpisodeSuccesses(log), e)
    ensures Closing(e) ==> ClosesAfter(log + [e], EpisodeSuccesses(log))
  {
    assert (log + [e])[..|log|] == log;
  }

  lemma LogThrice(log: seq<Event>, a: Event, b: Event, c: Event)
    ensures EpisodeSuccesses(log + [a] + [b]) == CountedAfter(CountedAfter(EpisodeSuccesses(log), a), b)
    ensures Closing(c) ==> ClosesAfter(log + [a] + [b] + [c], EpisodeSuccesses(log + [a] + [b]))
  {
    LogNext(log, a);
    LogNext(log + [a], b);
    LogNext(log + [a] + [b], c);
  }

  /** One call moves the breaker to HalfOpen, and the latecomer closes it at once. */
  lemma ClosesAtOnce(cfg: Config, actions: seq<Action>, s: System, late: nat, id: nat, now: int, m: nat)
    returns (actions': seq<Action>, s': System)
    requires Reaches(cfg, actions, s) && NoneFrom(s, id) && InProgress(s) == {late} && s.calls[late] == SwapToClosed
    requires s.shared.state == Open && now - s.shared.openedAt >= cfg.openTimeout && m >= 2
    ensures Reaches(cfg, actions', s') && GoesOn(cfg, actions, actions', now, now, m) && ClosesAfter(s'.log, 0)
  {
    var a0, s0 := Passes(cfg, actions, s, id, now, m);
    var moved := s0.log + [Moved(id, Open, HalfOpen)];
    assert Once(cfg, ViewOf(s0, id), id, now, true) == View(s0.shared.(state := HalfOpen), RecordToHalfOpen, moved);
    var a1, s1 := OneStep(cfg, a0, s0, id, now, true, m);
    GoesOnFurther(cfg, actions, a0, a1, now, now, now, now, m);
    assert Once(cfg, ViewOf(s1, late), late, now, true).log == moved + [Moved(late, HalfOpen, Closed)];
    actions', s' := OneStep(cfg, a1, s1, late, now, true, m);
    GoesOnFurther(cfg, actions, a1, actions', now, now, now, now, m);
    LogNext(s0.log, Moved(id, Open, HalfOpen));
    LogNext(moved, Moved(late, HalfOpen, Closed));
  }

  /** The operations of the probe that completes SuccessThreshold, up to the close. */
  lemma ClosingSteps(cfg: Config, v: View, id: nat, now: int) returns (k: nat)
    requires v.pc == TakeSlot && v.shared.state == HalfOpen && v.shared.inFlight == 0
    requires v.shared.successes + 1 >= cfg.successThreshold
    ensures Several(cfg, v, id, now, true, k).log ==
            v.log + [Called(id, true)] + [Bumped(id, Successes)] + [Moved(id, HalfOpen, Closed)]
  {
    k := 4;
  }

  lemma ClosingView(cfg: Config, v: View, id: nat, now: int) returns (k: nat)
    requires v.pc == TakeSlot && v.shared.state == HalfOpen && v.shared.inFlight == 0
    requires v.shared.successes + 1 >= cfg.successThreshold
    ensures ClosesAfter(Several(cfg, v, id, now, true, k).log, EpisodeSuccesses(v.log) + 1)
  {
    k := ClosingSteps(cfg, v, id, now);
    LogThrice(v.log, Called(id, true), Bumped(id, Successes), Moved(id, HalfOpen, Closed));
  }

  lemma ProbeCloses(cfg: Config, actions: seq<Action>, s: System, id: nat, now: int, m: nat)
    returns (actions': seq<Action>, s': System)
    requires Reaches(cfg, actions, s) && InProgress(s) == {id} && s.calls[id] == TakeSlot && m >= 1
    requires s.shared.state == HalfOpen && s.shared.inFlight == 0 && s.shared.successes + 1 >= cfg.successThreshold
    ensures Reaches(cfg, actions', s') && GoesOn(cfg, actions, actions', now, now, m)
    ensures ClosesAfter(s'.log, EpisodeSuccesses(s.log) + 1)
  {
    var k := ClosingView(cfg, ViewOf(s, id), id, now);
    actions', s' := Performs(cfg, actions, s, id, now, true, k, m);
  }

  /** The operations of any other successful probe. */
  lemma ReturningSteps(cfg: Config, v: View, id: nat, now: int) returns (k: nat)
    requires v.pc == TakeSlot && v.shared.state == HalfOpen && v.shared.inFlight == 0
    requires v.shared.successes + 1 < cfg.successThreshold
    ensures Several(cfg, v, id, now, true, k) ==
            View(v.shared.(successes := v.shared.successes + 1), Done(Returned(true)),
                 v.log + [Called(id, true)] + [Bumped(id, Successes)])
  {
    k := 4;
  }

  lemma ProbeReturns(cfg: Config, actions: seq<Action>, s: System, id: nat, now: int, m: nat)
    returns (actions': seq<Action>, s': System)
    requires Reaches(cfg, actions, s) && InProgress(s) == {id} && s.calls[id] == TakeSlot && m >= 1
    requires s.shared.state == HalfOpen && s.shared.inFlight == 0 && s.shared.successes + 1 < cfg.successThreshold
    ensures Reaches(cfg, actions', s') && GoesOn(cfg, actions, actions', now, now, m)
    ensures s'.shared == s.shared.(successes := s.shared.successes + 1)
    ensures InProgress(s') == {} && s'.calls.Keys == s.calls.Keys
    ensures EpisodeSuccesses(s'.log) == EpisodeSuccesses(s.log) + 1
  {
    var k := ReturningSteps(cfg, ViewOf(s, id), id, now);
    actions', s' := Performs(cfg, actions, s, id, now, true, k, m);
    ProgressUpdate(s, id, Done(Returned(true)), s');
    LogThrice(s.log, Called(id, true), Bumped(id, Successes), Called(id, true));
  }

  /** Successful calls, one after the other, until the breaker closes. */
  lemma {:induction false} Climbs(cfg: Config, actions: seq<Action>, s: System, id: nat, now: int, n: nat, m: nat)
    returns (actions': seq<Action>, s': System)
    requires Reaches(cfg, actions, s) && NoneFrom(s, id + 1) && InProgress(s) == {id} && s.calls[id] == TakeSlot
    requires s.shared.state == HalfOpen && s.shared.inFlight == 0
    requires 1 <= n && s.shared.successes + n == cfg.successThreshold && m >= 1
    ensures Reaches(cfg, actions', s') && GoesOn(cfg, actions, actions', now, now, m)
    ensures ClosesAfter(s'.log, EpisodeSuccesses(s.log) + n)
    decreases n
  {
    if n == 1 {
      actions', s' := ProbeCloses(cfg, actions, s, id, now, m);
    } else {
      var a0, s0 := ProbeReturns(cfg, actions, s, id, now, m);
      var a1, s1 := Fetches(cfg, a0, s0, id + 1, now, m);
      GoesOnFurther(cfg, actions, a0, a1, now, now, now, now, m);
      actions', s' := Climbs(cfg, a1, s1, id + 1, now, n - 1, m);
      GoesOnFurther(cfg, actions, a1, actions', now, now, now, now, m);
    }
  }

  /** A new call comes to the slot. */
  lemma Fetches(cfg: Config, actions: seq<Action>, s: System, id: nat, now: int, m: nat)
    returns (actions': seq<Action>, s': System)
    requires Reaches(cfg, actions, s) && NoneFrom(s, id) && InProgress(s) == {} && m >= 1 && s.shared.state == HalfOpen
    ensures Reaches(cfg, actions', s') && GoesOn(cfg, actions, actions', now, now, m)
    ensures s' == s.(calls := s.calls[id := TakeSlot]) && InProgress(s') == {id} && NoneFrom(s', id + 1)
  {
    assert Several(cfg, View(s.shared, LoadState, s.log), id, now, true, 1) == View(s.shared, TakeSlot, s.log);
    actions', s' := Begins(cfg, actions, s, id, now, true, 1, m);
    ProgressUpdate(s, id, TakeSlot, s');
  }

  /** A new call takes the breaker to HalfOpen and is at the slot. */
  lemma Reopens(cfg: Config, actions: seq<Action>, s: System, id: nat, now: int, m: nat)
    returns (actions': seq<Action>, s': System)
    requires Reaches(cfg, actions, s) && NoneFrom(s, id) && InProgress(s) == {} && m >= 1
    requires s.shared.state == Open && now - s.shared.openedAt >= cfg.openTimeout
    ensures Reaches(cfg, actions', s') && GoesOn(cfg, actions, actions', now, now, m)
    ensures s'.shared == s.shared.(state := HalfOpen, gauge := HalfOpen) && EpisodeSuccesses(s'.log) == 0
    ensures NoneFrom(s', id + 1) && InProgress(s') == {id} && s'.calls[id] == TakeSlot
  {
    var a0, s0 := Passes(cfg, actions, s, id, now, m);
    actions', s' := TakesToHalfOpen(cfg, a0, s0, id, now, m);
    GoesOnFurther(cfg, actions, a0, actions', now, now, now, now, m);
    ProgressUpdate(s0, id, TakeSlot, s');
    LogThrice(s.log, Moved(id, Open, HalfOpen), Recorded(id, Open, HalfOpen), Called(id, true));
  }

  /** The latecomer gives the slot back, and the next episode begins with its success. */
  lemma ClosesEarly(cfg: Config, actions: seq<Action>, s: System, late: nat, id: nat, now: int, m: nat)
    returns (actions': seq<Action>, s': System)
    requires Reaches(cfg, actions, s) && NoneFrom(s, id)
    requires InProgress(s) == {late} && s.calls[late] == ReleaseSlot(true)
    requires s.shared.state == Open && now - s.shared.openedAt >= cfg.openTimeout && m >= 1
    requires s.shared.successes < cfg.successThreshold
    ensures Reaches(cfg, actions', s') && GoesOn(cfg, actions, actions', now, now, m)
    ensures ClosesAfter(s'.log, cfg.successThreshold - s.shared.successes)
  {
    var a0, s0 := OneStep(cfg, actions, s, late, now, true, m);
    ProgressUpdate(s, late, s0.calls[late], s0);
    var a1, s1 := Reopens(cfg, a0, s0, id, now, m);
    GoesOnFurther(cfg, actions, a0, a1, now, now, now, now, m);
    actions', s' := Climbs(cfg, a1, s1, id, now, cfg.successThreshold - s.shared.successes, m);
    GoesOnFurther(cfg, actions, a1, actions', now, now, now, now, m);
  }

  /** Successes of an earlier episode are left over: under every configuration, with late + 1
      calls in progress, the breaker can close after all but `late` of the SuccessThreshold
      successes of its episode, and with as many latecomers as SuccessThreshold after none. */
  lemma CloseMayBeUnearned(cfg: Config, now: int, late: nat) returns (actions: seq<Action>, s: System)
    requires Usable(cfg) && 1 <= late <= cfg.successThreshold
    ensures Reaches(cfg, actions, s) && Paced(cfg, actions, now, now + 2 * cfg.openTimeout, late + 1)
    ensures ClosesAfter(s.log, cfg.successThreshold - late)
  {
    var again := now + cfg.openTimeout;
    var end := again + cfg.openTimeout;
    var a0, s0, last, free := LeftOver(cfg, now, late);
    if late == cfg.successThreshold {
      actions, s := ClosesAtOnce(cfg, a0, s0, last, free, end, late + 1);
    } else {
      actions, s := ClosesEarly(cfg, a0, s0, last, free, end, late + 1);
    }
    PacedFurther(cfg, a0, actions, now, again, end, end, late + 1);
  }

  // ----- The exact condition -----

  lemma AtMostMore(cfg: Config, actions: seq<Action>, m: nat, n: nat)
    requires AtMost(cfg, actions, m) && m <= n
    ensures AtMost(cfg, actions, n)
  {
  }

  /** All runs with at most m calls in progress keep Open for OpenTimeout exactly if m is at
      most 1. */
  lemma OpenLastsExactly(cfg: Config, m: nat)
    requires Usable(cfg)
    ensures (forall actions, s, from, to :: Reaches(cfg, actions, s) && Paced(cfg, actions, from, to, m) ==>
              OpenLasts(cfg, s.log, Times(cfg, actions)))
            <==> m <= 1
  {
    if m <= 1 {
      forall actions, s, from, to | Reaches(cfg, actions, s) && Paced(cfg, actions, from, to, m)
        ensures OpenLasts(cfg, s.log, Times(cfg, actions))
      {
        AtMostMore(cfg, actions, m, 1);
        SerialRunsAreSafe(cfg, actions, s, from, to);
      }
    } else {
      var now := cfg.openTimeout;
      var actions, s, trip, probe := OpenMayBeSkipped(cfg, now);
      AtMostMore(cfg, actions, 2, m);
      TimesFit(cfg, actions, s);
      TimesWithin(cfg, actions, now, now);
      var n := |s.log|;
      assert Opening(s.log[n - 5]) && s.log[n - 2].Called?;
      assert Paced(cfg, actions, now, now, m);
    }
  }

  /** All runs with at most m calls in progress leave the gauge at the state when they come to
      rest exactly if m is at most 1. */
  lemma GaugeShowsExactly(cfg: Config, m: nat)
    requires Usable(cfg)
    ensures (forall actions, s, from, to :: Reaches(cfg, actions, s) && Paced(cfg, actions, from, to, m) ==>
              GaugeShows(s))
            <==> m <= 1
  {
    if m <= 1 {
      forall actions, s, from, to | Reaches(cfg, actions, s) && Paced(cfg, actions, from, to, m) ensures GaugeShows(s) {
        AtMostMore(cfg, actions, m, 1);
        SerialRunsAreSafe(cfg, actions, s, from, to);
      }
    } else {
      var actions, s := GaugeMayBeStale(cfg, 0);
      AtMostMore(cfg, actions, 2, m);
      assert Paced(cfg, actions, 0, 0 + cfg.openTimeout, m);
    }
  }

  /** All runs with at most m calls in progress close only after SuccessThreshold successes of
      the episode exactly if m is at most 1. */
  lemma ClosesEarnedExactly(cfg: Config, m: nat)
    requires Usable(cfg)
    ensures (forall actions, s, from, to :: Reaches(cfg, actions, s) && Paced(cfg, actions, from, to, m) ==>
              ClosesEarned(cfg, s.log))
            <==> m <= 1
  {
    if m <= 1 {
      forall actions, s, from, to | Reaches(cfg, actions, s) && Paced(cfg, actions, from, to, m)
        ensures ClosesEarned(cfg, s.log)
      {
        AtMostMore(cfg, actions, m, 1);
        SerialRunsAreSafe(cfg, actions, s, from, to);
      }
    } else {
      var actions, s := CloseMayBeUnearned(cfg, 0, 1);
      AtMostMore(cfg, actions, 2, m);
      assert Closing(s.log[|s.log| - 1]);
      assert Paced(cfg, actions, 0, 0 + 2 * cfg.openTimeout, m);
    }
  }
}
