/** The fan-out cannot deadlock or run on: if every adapter and limiter call returns, some
    goroutine can always make a step until it has returned, without waiting for a tick or the
    deadline, and a measure linear in the number of carriers drops on every step but a tick. */
module FanOutProgress {
  import opened Domain
  import opened Collector
  import opened Tally
  import opened FanOut
  import opened FanOutSafety

  // ----- No deadlock -----

  /** The clock's doing: a tick of the monitor's ticker, or the request's deadline. */
  predicate OfTheClock(a: Action) {
    IsTick(a) || a.Deadline?
  }

  /** Some goroutine can make a step without waiting for the clock. */
  ghost predicate CanMove(cfg: Config, s: State) {
    exists a :: Enabled(cfg, s, a) && !OfTheClock(a)
  }

  lemma Moves(cfg: Config, s: State, a: Action)
    requires Enabled(cfg, s, a) && !OfTheClock(a)
    ensures CanMove(cfg, s)
  {
  }

  lemma PrimaryMoves(cfg: Config, s: State, i: nat)
    requires SetUp(cfg) && Invariant(cfg, s)
    requires i < |s.primaries| && !s.primaries[i].NotLaunched? && !s.primaries[i].Ended?
    ensures CanMove(cfg, s)
  {
    match s.primaries[i]
    case Lookup => Moves(cfg, s, OfPrimary(i, Find));
    case AtLimiter => Moves(cfg, s, OfPrimary(i, TakeToken));
    case AtBreaker => Moves(cfg, s, OfPrimary(i, Admit));
    case AtAdapter => Moves(cfg, s, OfPrimary(i, Fail(CarrierTimeout)));
    case Delivering(_) =>
      SentBounds(cfg, s);
      assert SomeoneUnsent(s);
      Moves(cfg, s, OfPrimary(i, Deliver));
  }

  lemma HedgeMoves(cfg: Config, s: State, k: nat)
    requires SetUp(cfg) && Invariant(cfg, s) && k < |s.hedges| && !s.hedges[k].pc.Finished?
    ensures CanMove(cfg, s)
  {
    assert s.hedges[k].fire == s.monitor.announced[k] == s.monitor.acquired[k];
    assert Justified(cfg, s.monitor.acquired[k]);
    if s.hedges[k].pc.Calling? {
      Moves(cfg, s, OfHedge(k, HedgeFails));
    } else {
      SentBounds(cfg, s);
      assert SomeoneUnsent(s);
      Moves(cfg, s, OfHedge(k, HedgeDelivers));
    }
  }

  lemma ScanMoves(cfg: Config, s: State)
    requires Acquisitions(cfg, s.monitor) && s.monitor.pc.Scanning?
    ensures CanMove(cfg, s)
  {
    if c :| c in s.monitor.pc.todo {
      assert c in cfg.pending.Keys;
      Moves(cfg, s, OfMonitor(Visit(c, seq(|cfg.hedgeable|, _ => false), false)));
    } else {
      Moves(cfg, s, OfMonitor(EndScan));
    }
  }

  lemma MonitorMoves(cfg: Config, s: State)
    requires Acquisitions(cfg, s.monitor) && HedgeDone(s)
    requires !s.monitor.pc.Signalled? && !s.monitor.pc.Draining?
    ensures CanMove(cfg, s)
  {
    match s.monitor.pc
    case Idle => Moves(cfg, s, OfMonitor(SeeDone));
    case Scanning(_, _, _) => ScanMoves(cfg, s);
    case Acquired(_, _, _) => Moves(cfg, s, OfMonitor(Announce));
    case Announced(_, _, _) => Moves(cfg, s, OfMonitor(StartHedge));
    case Exited => Moves(cfg, s, OfMonitor(Signal));
  }

  lemma DrainMoves(cfg: Config, s: State)
    requires SetUp(cfg) && Invariant(cfg, s) && s.monitor.pc.Draining?
    ensures CanMove(cfg, s)
  {
    if k :| 0 <= k < |s.hedges| && !s.hedges[k].pc.Finished? {
      HedgeMoves(cfg, s, k);
    } else {
      Moves(cfg, s, OfMonitor(Drained));
    }
  }

  lemma MainMoves(cfg: Config, s: State)
    requires SetUp(cfg) && Invariant(cfg, s) && s.main.pc.Collecting? && s.channel.closed
    ensures CanMove(cfg, s)
  {
    if s.channel.buffer != [] {
      Moves(cfg, s, OfMain(Receive));
    } else {
      SortSorts(s.main.collected);
      Moves(cfg, s, OfMain(Return(Sort(s.main.collected))));
    }
  }

  /** Once the primaries have ended, the waiter, the monitor or the collector goes on. */
  lemma WindDownMoves(cfg: Config, s: State)
    requires SetUp(cfg) && Invariant(cfg, s) && s.main.pc.Collecting? && AllEnded(s.primaries)
    ensures CanMove(cfg, s)
  {
    match s.waiter.pc
    case NotStarted => assert false;
    case AwaitingPrimaries => Moves(cfg, s, OfWaiter(WaitReturns));
    case Cancelling => Moves(cfg, s, OfWaiter(CancelHedges));
    case AwaitingMonitor =>
      if s.monitor.pc.Signalled? {
        Moves(cfg, s, OfWaiter(MonitorGone));
      } else if s.monitor.pc.Draining? {
        DrainMoves(cfg, s);
      } else {
        MonitorMoves(cfg, s);
      }
    case Closing => Moves(cfg, s, OfWaiter(Close));
    case Gone => MainMoves(cfg, s);
  }

  /** No reachable state short of the end is stuck. */
  lemma NeverStuck(cfg: Config, actions: seq<Action>, s: State)
    requires Reaches(cfg, actions, s) && !s.main.pc.Returned?
    ensures CanMove(cfg, s)
  {
    InvariantAlways(cfg, actions, s);
    if s.main.pc.Launching? {
      Moves(cfg, s, OfMain(if s.main.launched < |cfg.eligible| then Launch else StartWaiter));
    } else if i :| 0 <= i < |s.primaries| && !s.primaries[i].Ended? {
      PrimaryMoves(cfg, s, i);
    } else {
      WindDownMoves(cfg, s);
    }
  }

  // ----- The measure -----

  function PrimaryWork(p: Primary): int {
    match p
    case NotLaunched => 7
    case Lookup => 6
    case AtLimiter => 5
    case AtBreaker => 4
    case AtAdapter => 3
    case Delivering(_) => 2
    case Ended(_, _) => 0
  }

  function HedgeWork(h: Hedge): int {
    match h.pc
    case Calling => 3
    case Sending(_) => 2
    case Finished(_) => 0
  }

  function MonitorWork(cfg: Config, m: Monitor): int {
    6 * |cfg.pending.Keys - m.hedged| + PcWork(m.pc)
  }

  function WaiterWork(w: WaiterPc): int {
    match w
    case NotStarted => 5
    case AwaitingPrimaries => 4
    case Cancelling => 3
    case AwaitingMonitor => 2
    case Closing => 1
    case Gone => 0
  }

  function MainWork(m: MainPc): int {
    if m.Returned? then 0 else 1
  }

  /** An upper bound on the steps still to be made, scanning aside. */
  function Work(cfg: Config, s: State): int {
    Total(s.primaries, PrimaryWork) + Total(s.hedges, HedgeWork) + MonitorWork(cfg, s.monitor)
    + WaiterWork(s.waiter.pc) + MainWork(s.main.pc) + |s.channel.buffer| + if s.deadline then 0 else 1
  }

  /** The steps left in the monitor's current scan. */
  function ScanLeft(m: MonitorPc): nat {
    if Busy(m) then |m.todo| + 1 else 0
  }

  function Measure(cfg: Config, s: State): int {
    Work(cfg, s) + ScanLeft(s.monitor.pc)
  }

  lemma PrimaryWorkDrops(cfg: Config, carrier: string, at: Primary, p: PrimaryStep)
    requires PrimaryCan(carrier, at, p)
    ensures var m := MovePrimary(cfg, carrier, at, p);
            PrimaryWork(m.next) + (if m.send.Some? then 1 else 0) < PrimaryWork(at)
  {
  }

  lemma HedgeWorkDrops(carrier: string, fire: Fire, at: HedgePc, h: HedgeStep)
    requires HedgeCan(carrier, at, h)
    ensures var m := MoveHedge(carrier, at, h);
            HedgeWork(Hedge(fire, m.next)) + (if m.send.Some? then 1 else 0) < HedgeWork(Hedge(fire, at))
  {
  }

  /** A tick starts a scan and does no work; every other step of the monitor, with the hedge
      it may start, brings the measure down and never raises the work. */
  lemma MonitorWorkDrops(cfg: Config, m: Monitor, o: MonitorStep)
    requires MonitorCan(cfg, m.pc, o) && Acquisitions(cfg, m)
    ensures var move := MoveMonitor(cfg, m, o);
      var started := if move.start.Some? then 3 else 0;
      && MonitorWork(cfg, move.next) + started <= MonitorWork(cfg, m)
      && (!o.Tick? ==> MonitorWork(cfg, move.next) + started + ScanLeft(move.next.pc)
                       < MonitorWork(cfg, m) + ScanLeft(m.pc))
      && (o.Tick? ==>
            && MonitorWork(cfg, move.next) == MonitorWork(cfg, m)
            && ScanLeft(move.next.pc) == |cfg.pending.Keys| + 1 && ScanLeft(m.pc) == 0)
  {
    if o.Visit? {
      VisitDrops(cfg, m, o.carrier, o.open, o.token);
    } else if o.Tick? {
      TickStarts(cfg, m, o);
    } else {
      OtherDrops(cfg, m, o);
    }
  }

  lemma TickStarts(cfg: Config, m: Monitor, o: MonitorStep)
    requires MonitorCan(cfg, m.pc, o) && o.Tick?
    ensures var move := MoveMonitor(cfg, m, o);
      && move.start.None? && move.next == m.(pc := move.next.pc) && MonitorWork(cfg, move.next) == MonitorWork(cfg, m)
      && ScanLeft(move.next.pc) == |cfg.pending.Keys| + 1 && ScanLeft(m.pc) == 0
  {
  }

  /** The part of the monitor's work that its pc accounts for. */
  function PcWork(pc: MonitorPc): int {
    match pc
    case Idle | Scanning(_, _, _) => 3
    case Acquired(_, _, _) => 8
    case Announced(_, _, _) => 7
    case Draining => 2
    case Exited => 1
    case Signalled => 0
  }

  lemma OtherDrops(cfg: Config, m: Monitor, o: MonitorStep)
    requires MonitorCan(cfg, m.pc, o) && !o.Visit? && !o.Tick?
    ensures var move := MoveMonitor(cfg, m, o);
      var started := if move.start.Some? then 3 else 0;
      && move.next.hedged == m.hedged
      && PcWork(move.next.pc) + started <= PcWork(m.pc)
      && PcWork(move.next.pc) + started + ScanLeft(move.next.pc) < PcWork(m.pc) + ScanLeft(m.pc)
  {
  }

  lemma VisitDrops(cfg: Config, m: Monitor, c: string, open: seq<bool>, token: bool)
    requires MonitorCan(cfg, m.pc, Visit(c, open, token)) && Acquisitions(cfg, m)
    ensures var next := VisitCarrier(cfg, m, c, open, token);
      MonitorWork(cfg, next) <= MonitorWork(cfg, m) && ScanLeft(next.pc) < ScanLeft(m.pc)
  {
    var next := VisitCarrier(cfg, m, c, open, token);
    assert |m.pc.todo - {c}| == |m.pc.todo| - 1;
    if next.pc.Acquired? {
      assert c in cfg.pending.Keys - m.hedged;
      assert cfg.pending.Keys - next.hedged == (cfg.pending.Keys - m.hedged) - {c};
    }
  }

  /** The work drops while the monitor stands still. */
  ghost predicate Works(cfg: Config, s: State, t: State) {
    Work(cfg, t) < Work(cfg, s) && t.monitor == s.monitor
  }

  /** A tick leaves the work alone; any other step brings down the measure and never raises
      the work. */
  ghost predicate Descends(cfg: Config, s: State, t: State, tick: bool) {
    && Work(cfg, t) <= Work(cfg, s)
    && (tick ==> Work(cfg, t) == Work(cfg, s) && Measure(cfg, t) <= Measure(cfg, s) + |cfg.eligible| + 1)
    && (!tick ==> Measure(cfg, t) < Measure(cfg, s))
  }

  lemma WorkStep(cfg: Config, s: State, a: Action)
    requires SetUp(cfg) && Enabled(cfg, s, a)
    requires Launches(cfg, s.main, s.primaries, s.waiter.pc) && Acquisitions(cfg, s.monitor)
    ensures Descends(cfg, s, Apply(cfg, s, a), IsTick(a))
  {
    match a
    case OfMain(m) => WorkMain(cfg, s, m);
    case OfPrimary(i, p) => WorkPrimary(cfg, s, i, p);
    case OfMonitor(o) => WorkMonitor(cfg, s, o);
    case OfHedge(k, h) => WorkHedge(cfg, s, k, h);
    case OfWaiter(w) => WorkWaiter(cfg, s, w);
    case Deadline => assert Works(cfg, s, s.(deadline := true));
  }

  lemma WorkMain(cfg: Config, s: State, m: MainStep)
    requires Launches(cfg, s.main, s.primaries, s.waiter.pc) && MainEnabled(cfg, s, m)
    ensures Works(cfg, s, ApplyMain(cfg, s, m))
  {
    if m.Launch? {
      TotalUpdate(s.primaries, s.main.launched, Lookup, PrimaryWork);
    }
  }

  lemma WorkPrimary(cfg: Config, s: State, i: nat, p: PrimaryStep)
    requires PrimaryEnabled(cfg, s, i, p)
    ensures Works(cfg, s, CommitPrimary(s, i, MovePrimary(cfg, cfg.eligible[i], s.primaries[i], p)))
  {
    var m := MovePrimary(cfg, cfg.eligible[i], s.primaries[i], p);
    PrimaryWorkDrops(cfg, cfg.eligible[i], s.primaries[i], p);
    TotalUpdate(s.primaries, i, m.next, PrimaryWork);
  }

  lemma WorkHedge(cfg: Config, s: State, k: nat, h: HedgeStep)
    requires HedgeEnabled(cfg, s, k, h)
    ensures Works(cfg, s, CommitHedge(s, k, MoveHedge(Target(cfg, s.hedges[k]), s.hedges[k].pc, h)))
  {
    var m := MoveHedge(Target(cfg, s.hedges[k]), s.hedges[k].pc, h);
    HedgeWorkDrops(Target(cfg, s.hedges[k]), s.hedges[k].fire, s.hedges[k].pc, h);
    TotalUpdate(s.hedges, k, Hedge(s.hedges[k].fire, m.next), HedgeWork);
  }

  lemma WorkWaiter(cfg: Config, s: State, w: WaiterStep)
    requires WaiterEnabled(s, w)
    ensures Works(cfg, s, ApplyWaiter(s, w))
  {
  }

  lemma WorkMonitor(cfg: Config, s: State, o: MonitorStep)
    requires SetUp(cfg) && Acquisitions(cfg, s.monitor) && MonitorEnabled(cfg, s, o)
    ensures Descends(cfg, s, CommitMonitor(s, MoveMonitor(cfg, s.monitor, o)), o.Tick?)
  {
    var move := MoveMonitor(cfg, s.monitor, o);
    MonitorWorkDrops(cfg, s.monitor, o);
    SetFitsSeq(cfg.pending.Keys, cfg.eligible);
    if move.start.Some? {
      TotalAppend(s.hedges, Hedge(move.start.value, Calling), HedgeWork);
    }
  }

  /** Never negative, and the scan is linear in the number of carriers. */
  lemma MeasureBounds(cfg: Config, s: State)
    requires SetUp(cfg) && Acquisitions(cfg, s.monitor)
    ensures 0 <= Work(cfg, s)
    ensures 0 <= ScanLeft(s.monitor.pc) <= |cfg.eligible| + 1
  {
    TotalBounds(s.primaries, PrimaryWork, 7);
    TotalBounds(s.hedges, HedgeWork, 3);
    SetFitsSeq(cfg.pending.Keys, cfg.eligible);
    if Busy(s.monitor.pc) {
      SubsetSmaller(s.monitor.pc.todo, cfg.pending.Keys);
    }
  }

  lemma InitialWork(cfg: Config)
    requires SetUp(cfg)
    ensures Measure(cfg, Init(cfg)) == Work(cfg, Init(cfg)) <= 13 * |cfg.eligible| + 10
  {
    TotalConstant(Init(cfg).primaries, PrimaryWork, 7);
    SetFitsSeq(cfg.pending.Keys, cfg.eligible);
    assert cfg.pending.Keys - {} == cfg.pending.Keys;
  }

  // ----- Whole runs -----

  function Ticks(actions: seq<Action>): nat {
    if actions == [] then 0
    else Ticks(actions[..|actions| - 1]) + if IsTick(actions[|actions| - 1]) then 1 else 0
  }

  /** The steps that a run with so many ticks can make besides them. */
  function Allowance(n: nat, ticks: nat): nat {
    if ticks == 0 then 13 * n + 10 else Allowance(n, ticks - 1) + n + 1
  }

  lemma {:induction false} AllowanceIsLinear(n: nat, ticks: nat)
    ensures Allowance(n, ticks) == 13 * n + 10 + ticks * (n + 1)
  {
    if ticks > 0 {
      AllowanceIsLinear(n, ticks - 1);
      assert ticks * (n + 1) == (ticks - 1) * (n + 1) + n + 1;
    }
  }

  /** With this measure left, the steps made have been paid for. */
  ghost predicate WithinAllowance(n: nat, actions: seq<Action>, measure: int) {
    Ticks(actions) <= |actions| && measure + (|actions| - Ticks(actions)) <= Allowance(n, Ticks(actions))
  }

  /** One more step is paid for by the measure, one more tick by the allowance. */
  lemma Spend(n: nat, actions: seq<Action>, before: int, after: int)
    requires actions != [] && WithinAllowance(n, actions[..|actions| - 1], before)
    requires if IsTick(actions[|actions| - 1]) then after <= before + n + 1 else after < before
    ensures WithinAllowance(n, actions, after)
  {
  }

  lemma {:induction false} RunMeasure(cfg: Config, actions: seq<Action>, s: State)
    requires Reaches(cfg, actions, s)
    ensures Work(cfg, s) <= 13 * |cfg.eligible| + 10
    ensures WithinAllowance(|cfg.eligible|, actions, Measure(cfg, s))
  {
    if actions == [] {
      InitialWork(cfg);
    } else {
      var before := LastStep(cfg, actions, s);
      RunMeasure(cfg, actions[..|actions| - 1], before);
      Spend(|cfg.eligible|, actions, Measure(cfg, before), Measure(cfg, s));
    }
  }

  lemma LastStep(cfg: Config, actions: seq<Action>, s: State) returns (before: State)
    requires Reaches(cfg, actions, s) && actions != []
    ensures Reaches(cfg, actions[..|actions| - 1], before)
    ensures Descends(cfg, before, s, IsTick(actions[|actions| - 1]))
  {
    before := Exec(cfg, actions[..|actions| - 1]).value;
    EveryStepDescends(cfg, actions[..|actions| - 1], before, actions[|actions| - 1]);
  }

  lemma EveryStepDescends(cfg: Config, actions: seq<Action>, s: State, a: Action)
    requires Reaches(cfg, actions, s) && Enabled(cfg, s, a)
    ensures Descends(cfg, s, Apply(cfg, s, a), IsTick(a))
    ensures 0 <= Work(cfg, s)
    ensures 0 <= ScanLeft(s.monitor.pc) <= |cfg.eligible| + 1
  {
    InvariantAlways(cfg, actions, s);
    WorkStep(cfg, s, a);
    MeasureBounds(cfg, s);
  }

  /** The measure is linear in the number of carriers in every reachable state, and drops on
      every step but a tick. */
  lemma MeasureDrops(cfg: Config, actions: seq<Action>, s: State, a: Action)
    requires Reaches(cfg, actions, s) && Enabled(cfg, s, a)
    ensures 0 <= Measure(cfg, s) <= 14 * |cfg.eligible| + 11
    ensures !IsTick(a) ==> Measure(cfg, Apply(cfg, s, a)) < Measure(cfg, s)
    ensures IsTick(a) ==> Work(cfg, Apply(cfg, s, a)) == Work(cfg, s)
  {
    EveryStepDescends(cfg, actions, s, a);
    RunMeasure(cfg, actions, s);
  }

  /** A run with t ticks over n carriers has at most 13n + 10 + t(n + 1) other steps. */
  lemma RunsAreShort(cfg: Config, actions: seq<Action>, s: State)
    requires Reaches(cfg, actions, s)
    ensures |actions| - Ticks(actions) <=
            13 * |cfg.eligible| + 10 + Ticks(actions) * (|cfg.eligible| + 1)
  {
    RunMeasure(cfg, actions, s);
    InvariantAlways(cfg, actions, s);
    MeasureBounds(cfg, s);
    AllowanceIsLinear(|cfg.eligible|, Ticks(actions));
  }

  lemma MeasureLinear(cfg: Config, actions: seq<Action>, s: State)
    requires Reaches(cfg, actions, s)
    ensures 0 <= Work(cfg, s) && 0 <= Measure(cfg, s) <= 14 * |cfg.eligible| + 11
  {
    RunMeasure(cfg, actions, s);
    InvariantAlways(cfg, actions, s);
    MeasureBounds(cfg, s);
  }

  /** From every reachable state the goroutines can bring the fan-out to its return on their
      own, without the clock, in at most 14n + 11 steps. */
  lemma {:induction false} AlwaysFinishes(cfg: Config, actions: seq<Action>, s: State)
    returns (more: seq<Action>, end: State)
    requires Reaches(cfg, actions, s)
    ensures Reaches(cfg, actions + more, end) && end.main.pc.Returned?
    ensures forall i :: 0 <= i < |more| ==> !OfTheClock(more[i])
    ensures |more| <= Measure(cfg, s) <= 14 * |cfg.eligible| + 11
    decreases Measure(cfg, s)
  {
    MeasureLinear(cfg, actions, s);
    if s.main.pc.Returned? {
      assert actions + [] == actions;
      return [], s;
    }
    var a, next := NextStep(cfg, actions, s);
    MeasureLinear(cfg, actions + [a], next);
    var rest: seq<Action>;
    rest, end := AlwaysFinishes(cfg, actions + [a], next);
    more := [a] + rest;
    Regroup(actions, a, rest);
  }

  lemma Regroup(actions: seq<Action>, a: Action, rest: seq<Action>)
    ensures actions + ([a] + rest) == actions + [a] + rest
  {
  }

  lemma NextStep(cfg: Config, actions: seq<Action>, s: State) returns (a: Action, next: State)
    requires Reaches(cfg, actions, s) && !s.main.pc.Returned?
    ensures Reaches(cfg, actions + [a], next) && !OfTheClock(a) && Measure(cfg, next) < Measure(cfg, s)
  {
    NeverStuck(cfg, actions, s);
    a :| Enabled(cfg, s, a) && !OfTheClock(a);
    EveryStepDescends(cfg, actions, s, a);
    next := Apply(cfg, s, a);
    assert (actions + [a])[..|actions|] == actions;
  }

  // ----- Fairness -----

  /** In every k consecutive ticks some work is done. */
  ghost predicate Fair(cfg: Config, actions: seq<Action>, k: nat) {
    forall i: nat, j: nat, s, t ::
      (&& i <= j <= |actions| && Reaches(cfg, actions[..i], s) && Reaches(cfg, actions[..j], t)
       && Ticks(actions[..j]) >= Ticks(actions[..i]) + k) ==> Work(cfg, t) < Work(cfg, s)
  }

  /** The moment at which the run had so many ticks. */
  lemma {:induction false} TickMoment(actions: seq<Action>, ticks: nat) returns (i: nat)
    requires ticks <= Ticks(actions)
    ensures i <= |actions| && Ticks(actions[..i]) == ticks
  {
    if Ticks(actions) == ticks {
      i := |actions|;
      assert actions[..i] == actions;
    } else {
      var n := |actions| - 1;
      i := TickMoment(actions[..n], ticks);
      assert actions[..n][..i] == actions[..i];
    }
  }

  lemma {:induction false} PrefixReaches(cfg: Config, actions: seq<Action>, s: State, i: nat) returns (t: State)
    requires Reaches(cfg, actions, s) && i <= |actions|
    ensures Reaches(cfg, actions[..i], t)
  {
    if i == |actions| {
      assert actions[..i] == actions;
      return s;
    }
    var n := |actions| - 1;
    assert actions[..n][..i] == actions[..i];
    t := PrefixReaches(cfg, actions[..n], Exec(cfg, actions[..n]).value, i);
  }

  /** The state k ticks before. */
  lemma TicksBefore(cfg: Config, actions: seq<Action>, s: State, i: nat, k: nat) returns (j: nat, before: State)
    requires i <= |actions| && Reaches(cfg, actions[..i], s) && k <= Ticks(actions[..i])
    ensures j <= i && Reaches(cfg, actions[..j], before) && Ticks(actions[..j]) == Ticks(actions[..i]) - k
  {
    j := TickMoment(actions[..i], Ticks(actions[..i]) - k);
    assert actions[..i][..j] == actions[..j];
    before := PrefixReaches(cfg, actions[..i], s, j);
  }

  /** Every k ticks of a fair run cost one unit of work. */
  lemma {:induction false} TicksCost(cfg: Config, actions: seq<Action>, s: State, i: nat, k: nat, q: nat)
    requires i <= |actions| && Reaches(cfg, actions[..i], s) && Fair(cfg, actions, k) && k >= 1
    requires q * k <= Ticks(actions[..i])
    ensures Work(cfg, s) <= 13 * |cfg.eligible| + 10 - q
    decreases q
  {
    if q == 0 {
      RunMeasure(cfg, actions[..i], s);
    } else {
      OneLess(q, k);
      var j, before := TicksBefore(cfg, actions, s, i, k);
      TicksCost(cfg, actions, before, j, k, q - 1);
    }
  }

  lemma OneLess(q: nat, k: nat)
    requires q >= 1
    ensures q * k == (q - 1) * k + k && q * k >= k
  {
  }

  lemma FairTicksAreFew(cfg: Config, actions: seq<Action>, s: State, k: nat)
    requires Reaches(cfg, actions, s) && Fair(cfg, actions, k) && k >= 1
    ensures Ticks(actions) < (13 * |cfg.eligible| + 11) * k
  {
    assert actions[..|actions|] == actions;
    var q := 13 * |cfg.eligible| + 11;
    if q * k <= Ticks(actions) {
      TicksCost(cfg, actions, s, |actions|, k, q);
      MeasureLinear(cfg, actions, s);
    }
  }

  /** Termination under fairness: a run that does some work in every k consecutive ticks has
      fewer than (13n + 11) * k ticks, and so a bounded number of steps in all. */
  lemma FairRunsAreShort(cfg: Config, actions: seq<Action>, s: State, k: nat)
    requires Reaches(cfg, actions, s) && Fair(cfg, actions, k) && k >= 1
    ensures Ticks(actions) < (13 * |cfg.eligible| + 11) * k
    ensures |actions| <= 13 * |cfg.eligible| + 10 + (13 * |cfg.eligible| + 11) * k * (|cfg.eligible| + 2)
  {
    FairTicksAreFew(cfg, actions, s, k);
    RunsAreShort(cfg, actions, s);
    SpentOnTicks(|actions|, Ticks(actions), (13 * |cfg.eligible| + 11) * k, |cfg.eligible|);
  }

  lemma SpentOnTicks(steps: nat, ticks: nat, bound: int, n: nat)
    requires ticks <= bound && steps - ticks <= 13 * n + 10 + ticks * (n + 1)
    ensures steps <= 13 * n + 10 + bound * (n + 2)
  {
    assert (bound - ticks) * (n + 2) >= 0;
  }
}
