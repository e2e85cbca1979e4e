/** What holds of the hedges of one fan-out and of its monitor, over every interleaving. */
module FanOutHedges {
  import opened Domain
  import opened Selection
  import opened FanOut
  import opened FanOutSafety
  import Ema
  import EmaInterleaved
  import SwapLoop

  // ----- Which hedges are fired -----

  /** Each trigger fires at most one hedge, and tokens, metrics and goroutines go together:
      once no firing is under way the three lists are the same, at most one per carrier. */
  lemma HedgesAreConserved(cfg: Config, actions: seq<Action>, s: State)
    requires Reaches(cfg, actions, s)
    ensures forall i, j :: 0 <= i < j < |s.monitor.acquired| ==>
              s.monitor.acquired[i].trigger != s.monitor.acquired[j].trigger
    ensures |s.hedges| <= |s.monitor.announced| <= |s.monitor.acquired| <= |cfg.eligible|
    ensures |s.monitor.acquired| <= |s.hedges| + 1
    ensures forall k :: 0 <= k < |s.hedges| ==> s.hedges[k].fire == s.monitor.announced[k] == s.monitor.acquired[k]
    ensures !s.monitor.pc.Acquired? && !s.monitor.pc.Announced? ==>
              s.monitor.acquired == s.monitor.announced && |s.hedges| == |s.monitor.announced|
  {
    InvariantAlways(cfg, actions, s);
    HedgesBounded(cfg, s);
  }

  /** The target is another eligible carrier, with an adapter and not seen Open, and no other
      allowed candidate is better. */
  lemma HedgesGoToTheBest(cfg: Config, actions: seq<Action>, s: State, k: nat)
    requires Reaches(cfg, actions, s) && k < |s.monitor.acquired|
    ensures var f := s.monitor.acquired[k];
      && f.trigger in cfg.eligible && f.trigger in cfg.pending
      && |f.open| == |cfg.hedgeable| && IsBest(f.trigger, cfg.hedgeable, f.open, |cfg.hedgeable|, f.target)
      && cfg.hedgeable[f.target].id in cfg.eligible && cfg.hedgeable[f.target].id in cfg.registered
      && cfg.hedgeable[f.target].id != f.trigger && !f.open[f.target]
  {
    InvariantAlways(cfg, actions, s);
    var f := s.monitor.acquired[k];
    assert Justified(cfg, f);
    SelectedIsBest(f.trigger, cfg.hedgeable, f.open);
    assert cfg.hedgeable[f.target] in cfg.hedgeable;
  }

  /** The threshold kept for the carrier was read from its tracker after these operations of
      any number of overlapping calls of Record. */
  ghost predicate ReadFrom(cfg: Config, carrier: string, tracker: Ema.Config, hint: int,
                           records: seq<SwapLoop.Action<real>>, ts: SwapLoop.System<Ema.State, real>)
    requires carrier in cfg.pending
  {
    && SwapLoop.Reaches(EmaInterleaved.Recording(Ema.Alpha(tracker)), Ema.Initial(hint), records, ts)
    && ts.current < |ts.heap|
    && cfg.pending[carrier].threshold == Ema.HedgeThreshold(tracker, ts.heap[ts.current])
  }

  /** A hedge is fired only for a carrier whose tracker had as many committed records as its
      warm-up asks for when the threshold was read, and only once the elapsed time has reached
      multiplier times the moving average of exactly those records in commit order. */
  lemma HedgesAreDue(cfg: Config, actions: seq<Action>, s: State, k: nat, tracker: Ema.Config, hint: int,
                     records: seq<SwapLoop.Action<real>>, ts: SwapLoop.System<Ema.State, real>)
    requires Reaches(cfg, actions, s) && k < |s.monitor.acquired|
    requires s.monitor.acquired[k].trigger in cfg.pending
    requires ReadFrom(cfg, s.monitor.acquired[k].trigger, tracker, hint, records, ts)
    ensures |ts.order| >= tracker.warmup
    ensures var f := s.monitor.acquired[k];
            Ema.Since(f.now, cfg.pending[f.trigger].start) as real >=
            Ema.Fold(Ema.Alpha(tracker), Ema.Initial(hint), ts.observed).p95 * tracker.multiplier * 1_000_000.0
  {
    var f, seed := s.monitor.acquired[k], Ema.Initial(hint);
    FiresWhenOverdue(cfg, actions, s, k);
    EmaInterleaved.RecordLosesNothing(Ema.Alpha(tracker), seed, records, ts);
    Ema.OverdueExactly(tracker, seed, ts.observed, f.now, cfg.pending[f.trigger].start);
    Ema.FoldCounts(Ema.Alpha(tracker), seed, ts.observed);
  }

  lemma FiresWhenOverdue(cfg: Config, actions: seq<Action>, s: State, k: nat)
    requires Reaches(cfg, actions, s) && k < |s.monitor.acquired|
    ensures Justified(cfg, s.monitor.acquired[k])
  {
    InvariantAlways(cfg, actions, s);
  }

  // ----- When the monitor stops -----

  predicate Stopped(pc: MonitorPc) {
    pc.Draining? || pc.Exited? || pc.Signalled?
  }

  /** A scan that has found everything resolved has left behind only hedged carriers. */
  ghost predicate Patient(cfg: Config, m: Monitor, done: bool) {
    && (m.pc.Scanning? && m.pc.allResolved ==> cfg.pending.Keys <= m.pc.todo + m.hedged)
    && (Stopped(m.pc) ==> done || cfg.pending.Keys <= m.hedged)
  }

  lemma PatientMonitor(cfg: Config, m: Monitor, done: bool, o: MonitorStep)
    requires Patient(cfg, m, done) && MonitorCan(cfg, m.pc, o) && (o.SeeDone? ==> done)
    ensures Patient(cfg, MoveMonitor(cfg, m, o).next, done)
  {
  }

  lemma PatientStep(cfg: Config, s: State, a: Action)
    requires Patient(cfg, s.monitor, HedgeDone(s)) && Enabled(cfg, s, a)
    requires Launches(cfg, s.main, s.primaries, s.waiter.pc)
    ensures Patient(cfg, Apply(cfg, s, a).monitor, HedgeDone(Apply(cfg, s, a)))
  {
    if a.OfMonitor? {
      PatientMonitor(cfg, s.monitor, HedgeDone(s), a.o);
    } else {
      Untouched(cfg, s, a);
    }
    DoneStaysDone(cfg, s, a);
  }

  lemma DoneStaysDone(cfg: Config, s: State, a: Action)
    requires Enabled(cfg, s, a) && Launches(cfg, s.main, s.primaries, s.waiter.pc)
    ensures HedgeDone(s) ==> HedgeDone(Apply(cfg, s, a))
  {
    if i :| 0 <= i < |s.primaries| && s.primaries[i].Ended? && s.primaries[i].returned.Some? {
      assert Apply(cfg, s, a).primaries[i] == s.primaries[i];
    }
  }

  lemma LaunchesAlways(cfg: Config, actions: seq<Action>, s: State)
    requires Reaches(cfg, actions, s)
    ensures Launches(cfg, s.main, s.primaries, s.waiter.pc) && s.monitor.hedged <= cfg.pending.Keys
  {
    InvariantAlways(cfg, actions, s);
  }

  lemma {:induction false} PatientAlways(cfg: Config, actions: seq<Action>, s: State)
    requires Reaches(cfg, actions, s)
    ensures Patient(cfg, s.monitor, HedgeDone(s))
  {
    if actions != [] {
      var n := |actions| - 1;
      var before := Exec(cfg, actions[..n]).value;
      PatientAlways(cfg, actions[..n], before);
      LaunchesAlways(cfg, actions[..n], before);
      PatientStep(cfg, before, actions[n]);
    }
  }

  /** The monitor gives up only when its context has ended or every carrier has been hedged:
      while neither is so, it keeps looking after the primaries that are late. */
  lemma MonitorPersists(cfg: Config, actions: seq<Action>, s: State)
    requires Reaches(cfg, actions, s)
    ensures Stopped(s.monitor.pc) ==>
              || s.deadline || (WaitReturned(s.waiter.pc) && AllEnded(s.primaries))
              || s.monitor.hedged == cfg.pending.Keys
  {
    PatientAlways(cfg, actions, s);
    ContextsEnd(cfg, actions, s);
    InvariantAlways(cfg, actions, s);
  }

  /** The hedges' context ends exactly with the group's: at the deadline, or when the group's
      Wait has returned. */
  lemma ContextsEnd(cfg: Config, actions: seq<Action>, s: State)
    requires Reaches(cfg, actions, s)
    ensures HedgeDone(s) <==> GroupDone(s)
    ensures GroupDone(s) <==> s.deadline || WaitReturned(s.waiter.pc)
  {
    InvariantAlways(cfg, actions, s);
  }

  // ----- What a visit does -----

  /** A visit fires a hedge for the carrier exactly if none was fired before, the carrier is
      overdue, some candidate is allowed and a token is there, for every reading of the breakers;
      the hedge goes to the candidate that is best by (p95, priority). Otherwise it leaves
      everything as it is, but for a carrier without a hedge not everything is resolved. */
  lemma VisitExactly(cfg: Config, m: Monitor, c: string, open: seq<bool>, token: bool)
    requires MonitorCan(cfg, m.pc, Visit(c, open, token))
    ensures var next := VisitCarrier(cfg, m, c, open, token);
      var some := exists i :: 0 <= i < |cfg.hedgeable| && cfg.hedgeable[i].id != c && !open[i];
      var due := Ema.Overdue(m.pc.now, cfg.pending[c].start, cfg.pending[c].threshold);
      if c !in m.hedged && due && some && token then
        && next.pc.Acquired? && next.pc.fire.trigger == c && next.pc.fire.now == m.pc.now && next.pc.fire.open == open
        && next.pc.now == m.pc.now && next.pc.todo == m.pc.todo - {c} && next.hedged == m.hedged + {c}
        && next.acquired == m.acquired + [next.pc.fire] && next.announced == m.announced
        && IsBest(c, cfg.hedgeable, open, |cfg.hedgeable|, next.pc.fire.target)
      else next == m.(pc := Scanning(m.pc.now, m.pc.todo - {c}, m.pc.allResolved && c in m.hedged))
  {
    SelectedIsBest(c, cfg.hedgeable, open);
    var some := exists i :: 0 <= i < |cfg.hedgeable| && cfg.hedgeable[i].id != c && !open[i];
    assert some <==> exists i :: Allowed(c, cfg.hedgeable, open, i) by {
      if i :| Allowed(c, cfg.hedgeable, open, i) {
        assert cfg.hedgeable[i].id != c && !open[i];
      }
      if i :| 0 <= i < |cfg.hedgeable| && cfg.hedgeable[i].id != c && !open[i] {
        assert Allowed(c, cfg.hedgeable, open, i);
      }
    }
  }

  // ----- A hedge for a carrier that has answered -----

  /** Primary i has delivered its quote, and the action fires a hedge for its carrier. */
  ghost predicate FiresLate(cfg: Config, s: State, a: Action, i: nat)
    requires i < |cfg.eligible|
  {
    && i < |s.primaries| && s.primaries[i].Ended? && s.primaries[i].how.Sent? && Enabled(cfg, s, a)
    && var before, after := s.monitor.acquired, Apply(cfg, s, a).monitor.acquired;
       |after| == |before| + 1 && after[|before|].trigger == cfg.eligible[i]
  }

  /** The carrier is overdue when the window since its start has passed, and there is another
      carrier to send a hedge to. */
  ghost predicate Hedgeable(cfg: Config, c: string, window: nat)
    requires c in cfg.pending
  {
    && Ema.Overdue(cfg.pending[c].start + window, cfg.pending[c].start, cfg.pending[c].threshold)
    && exists k :: 0 <= k < |cfg.hedgeable| && cfg.hedgeable[k].id != c
  }

  /** The monitor ticks only within the window since the carrier's start. */
  ghost predicate TicksWithin(cfg: Config, actions: seq<Action>, c: string, window: nat)
    requires c in cfg.pending
  {
    forall k :: 0 <= k < |actions| && actions[k].OfMonitor? && actions[k].o.Tick? ==>
      actions[k].o.now <= cfg.pending[c].start + window
  }

  /** Primary i's carrier can get a hedge after its answer, by a tick within the window. */
  ghost predicate CanFireLate(cfg: Config, i: nat, window: nat)
    requires SetUp(cfg) && i < |cfg.eligible|
  {
    exists actions, s, a :: Reaches(cfg, actions, s) && FiresLate(cfg, s, a, i)
                            && TicksWithin(cfg, actions, cfg.eligible[i], window)
  }

  /** The pending carriers are a snapshot that is never updated, so a hedge can fire for a
      primary that has answered already exactly if the primary can answer and its carrier can
      be hedged at all within the window (the request's timeout, say): having answered never
      protects it. */
  lemma LateHedgeExactly(cfg: Config, i: nat, window: nat)
    requires SetUp(cfg) && i < |cfg.eligible|
    ensures CanFireLate(cfg, i, window) <==>
            cfg.eligible[i] in cfg.registered && Hedgeable(cfg, cfg.eligible[i], window)
  {
    if CanFireLate(cfg, i, window) {
      var actions, s, a :| Reaches(cfg, actions, s) && FiresLate(cfg, s, a, i)
                           && TicksWithin(cfg, actions, cfg.eligible[i], window);
      LateHedgeNeeds(cfg, actions, s, a, i, window);
    }
    if cfg.eligible[i] in cfg.registered && Hedgeable(cfg, cfg.eligible[i], window) {
      var actions, s, a := LateHedge(cfg, i, window);
    }
  }

  /** With no window given, a late hedge is possible exactly if it is within some window. */
  lemma LateHedgeAtAll(cfg: Config, i: nat)
    requires SetUp(cfg) && i < |cfg.eligible|
    ensures (exists actions, s, a :: Reaches(cfg, actions, s) && FiresLate(cfg, s, a, i)) <==>
            cfg.eligible[i] in cfg.registered && exists window: nat :: Hedgeable(cfg, cfg.eligible[i], window)
  {
    if actions, s, a :| Reaches(cfg, actions, s) && FiresLate(cfg, s, a, i) {
      var window := WindowOf(cfg, actions, cfg.eligible[i]);
      LateHedgeNeeds(cfg, actions, s, a, i, window);
    }
    if cfg.eligible[i] in cfg.registered && exists window: nat :: Hedgeable(cfg, cfg.eligible[i], window) {
      var window: nat :| Hedgeable(cfg, cfg.eligible[i], window);
      var actions, s, a := LateHedge(cfg, i, window);
    }
  }

  lemma {:induction false} WindowOf(cfg: Config, actions: seq<Action>, c: string) returns (window: nat)
    requires c in cfg.pending
    ensures TicksWithin(cfg, actions, c, window)
  {
    window := 0;
    if actions != [] {
      var last := actions[|actions| - 1];
      window := WindowOf(cfg, actions[..|actions| - 1], c);
      if IsTick(last) && last.o.now > cfg.pending[c].start + window {
        window := last.o.now - cfg.pending[c].start;
      }
    }
  }

  /** A scan works with the instant of the tick that began it. */
  lemma {:induction false} ScansWithin(cfg: Config, actions: seq<Action>, s: State, c: string, window: nat)
    requires Reaches(cfg, actions, s) && c in cfg.pending && TicksWithin(cfg, actions, c, window)
    ensures Busy(s.monitor.pc) ==> s.monitor.pc.now <= cfg.pending[c].start + window
  {
    if actions != [] {
      var n := |actions| - 1;
      var before := Exec(cfg, actions[..n]).value;
      ScansWithin(cfg, actions[..n], before, c, window);
      if actions[n].OfMonitor? {
        ScanGoesOn(cfg, before.monitor, actions[n].o);
      } else {
        Untouched(cfg, before, actions[n]);
      }
    }
  }

  lemma ScanGoesOn(cfg: Config, m: Monitor, o: MonitorStep)
    requires MonitorCan(cfg, m.pc, o)
    ensures var next := MoveMonitor(cfg, m, o).next;
      Busy(next.pc) ==> if o.Tick? then next.pc.now == o.now else Busy(m.pc) && next.pc.now == m.pc.now
    ensures var acquired := MoveMonitor(cfg, m, o).next.acquired;
      |acquired| > |m.acquired| ==> Busy(m.pc) && acquired[|m.acquired|].now == m.pc.now
  {
  }

  lemma LateHedgeNeeds(cfg: Config, actions: seq<Action>, s: State, a: Action, i: nat, window: nat)
    requires Reaches(cfg, actions, s) && i < |cfg.eligible| && FiresLate(cfg, s, a, i)
    requires TicksWithin(cfg, actions, cfg.eligible[i], window)
    ensures cfg.eligible[i] in cfg.registered && Hedgeable(cfg, cfg.eligible[i], window)
  {
    var f := LateFire(cfg, actions, s, a, i, window);
    assert Justified(cfg, f);
    SelectedIsBest(f.trigger, cfg.hedgeable, f.open);
    var start := cfg.pending[f.trigger].start;
    MillisecondsGrow(Ema.Since(f.now, start), Ema.Since(start + window, start));
  }

  /** The fire that the late hedge adds. */
  lemma LateFire(cfg: Config, actions: seq<Action>, s: State, a: Action, i: nat, window: nat) returns (f: Fire)
    requires Reaches(cfg, actions, s) && i < |cfg.eligible| && FiresLate(cfg, s, a, i)
    requires TicksWithin(cfg, actions, cfg.eligible[i], window)
    ensures cfg.eligible[i] in cfg.registered && Justified(cfg, f)
    ensures f.trigger == cfg.eligible[i] && f.now <= cfg.pending[f.trigger].start + window
  {
    InvariantAlways(cfg, actions, s);
    assert Plausible(cfg, cfg.eligible[i], s.primaries[i]);
    HedgingStep(cfg, s, a);
    f := Apply(cfg, s, a).monitor.acquired[|s.monitor.acquired|];
    ScansWithin(cfg, actions, s, cfg.eligible[i], window);
    if a.OfMonitor? {
      ScanGoesOn(cfg, s.monitor, a.o);
    } else {
      Untouched(cfg, s, a);
    }
  }

  lemma MillisecondsGrow(a: int, b: int)
    requires a <= b
    ensures Ema.Milliseconds(a) <= Ema.Milliseconds(b)
  {
  }

  lemma LateHedge(cfg: Config, i: nat, window: nat) returns (actions: seq<Action>, s: State, a: Action)
    requires SetUp(cfg) && i < |cfg.eligible|
    requires cfg.eligible[i] in cfg.registered && Hedgeable(cfg, cfg.eligible[i], window)
    ensures Reaches(cfg, actions, s) && FiresLate(cfg, s, a, i)
    ensures TicksWithin(cfg, actions, cfg.eligible[i], window)
  {
    var c := cfg.eligible[i];
    actions, s := Launched(cfg, i + 1);
    actions, s := Answered(cfg, actions, s, i, Quote("", c, Money(0, ""), 0, "", 0, false));
    var tick := OfMonitor(Tick(cfg.pending[c].start + window));
    var before := s;
    actions, s := Next(cfg, actions, s, tick);
    assert s.primaries == before.primaries && s.monitor == MoveMonitor(cfg, before.monitor, tick.o).next;
    a := OfMonitor(Visit(c, seq(|cfg.hedgeable|, _ => false), true));
    VisitFires(cfg, s.monitor, c, window, a.o);
  }

  /** A visit at the end of the window, when no breaker is Open and a token is there. */
  lemma VisitFires(cfg: Config, m: Monitor, c: string, window: nat, o: MonitorStep)
    requires c in cfg.pending && Hedgeable(cfg, c, window) && c !in m.hedged
    requires m.pc.Scanning? && c in m.pc.todo && m.pc.now == cfg.pending[c].start + window
    requires o == Visit(c, seq(|cfg.hedgeable|, _ => false), true)
    ensures MonitorCan(cfg, m.pc, o)
    ensures var acquired := MoveMonitor(cfg, m, o).next.acquired;
            |acquired| == |m.acquired| + 1 && acquired[|m.acquired|].trigger == c
  {
    var k :| 0 <= k < |cfg.hedgeable| && cfg.hedgeable[k].id != c;
    assert Allowed(c, cfg.hedgeable, o.open, k);
    SelectedIsBest(c, cfg.hedgeable, o.open);
  }

  /** The first n primaries have been launched, and nothing else has happened. */
  lemma {:induction false} Launched(cfg: Config, n: nat) returns (actions: seq<Action>, s: State)
    requires SetUp(cfg) && n <= |cfg.eligible|
    ensures Reaches(cfg, actions, s) && NoTicks(actions)
    ensures s == Init(cfg).(main := Init(cfg).main.(launched := n), primaries := s.primaries)
    ensures |s.primaries| == |cfg.eligible| && forall j :: 0 <= j < n ==> s.primaries[j] == Lookup
  {
    actions, s := [], Init(cfg);
    if n > 0 {
      actions, s := Launched(cfg, n - 1);
      actions, s := Next(cfg, actions, s, OfMain(Launch));
    }
  }

  ghost predicate NoTicks(actions: seq<Action>) {
    forall k :: 0 <= k < |actions| ==> !IsTick(actions[k])
  }

  /** The primary makes a step while everybody else stands still. */
  lemma OnePrimaryStep(cfg: Config, actions: seq<Action>, s: State, i: nat, p: PrimaryStep, next: Primary)
    returns (actions': seq<Action>, s': State)
    requires Reaches(cfg, actions, s) && PrimaryEnabled(cfg, s, i, p)
    requires MovePrimary(cfg, cfg.eligible[i], s.primaries[i], p).next == next
    ensures Reaches(cfg, actions', s') && (NoTicks(actions) ==> NoTicks(actions'))
    ensures s'.monitor == s.monitor && s'.primaries == s.primaries[i := next]
    ensures !p.Deliver? ==> s'.channel == s.channel
  {
    actions', s' := Next(cfg, actions, s, OfPrimary(i, p));
  }

  /** The primary answers and delivers while everybody else stands still. */
  lemma Answered(cfg: Config, actions: seq<Action>, s: State, i: nat, q: Quote)
    returns (actions': seq<Action>, s': State)
    requires Reaches(cfg, actions, s) && i < |s.primaries| && i < |cfg.eligible| && s.primaries[i] == Lookup
    requires cfg.eligible[i] in cfg.registered && q.carrierId == cfg.eligible[i] && CanSend(cfg, s.channel)
    ensures Reaches(cfg, actions', s') && s'.monitor == s.monitor && (NoTicks(actions) ==> NoTicks(actions'))
    ensures |s'.primaries| == |s.primaries| && s'.primaries[i] == Ended(Sent(q), None)
  {
    actions', s' := OnePrimaryStep(cfg, actions, s, i, Find, AtLimiter);
    actions', s' := OnePrimaryStep(cfg, actions', s', i, TakeToken, AtBreaker);
    actions', s' := OnePrimaryStep(cfg, actions', s', i, Admit, AtAdapter);
    actions', s' := OnePrimaryStep(cfg, actions', s', i, PrimaryStep.Answer(q), Delivering(q));
    actions', s' := OnePrimaryStep(cfg, actions', s', i, Deliver, Ended(Sent(q), None));
  }

  lemma Next(cfg: Config, actions: seq<Action>, s: State, a: Action) returns (actions': seq<Action>, s': State)
    requires Reaches(cfg, actions, s) && Enabled(cfg, s, a)
    ensures Reaches(cfg, actions', s') && s' == Apply(cfg, s, a) && actions' == actions + [a]
  {
    actions', s' := actions + [a], Apply(cfg, s, a);
    assert actions'[..|actions|] == actions;
  }
}
