/** The circuit breaker used by any number of overlapping calls: a transition system
    with one step per atomic operation of the code. */
module BreakerInterleaved {
  import opened Domain
  import opened BreakerHistory

  datatype Counter = Failures | Successes

  /** What Execute returns: ErrCircuitOpen, or fn's own outcome. */
  datatype Verdict = Rejected | Returned(ok: bool)

  /** The breaker's atomics, and the gauge it writes. */
  datatype Shared = Shared(
    state: State, failures: nat, successes: nat, inFlight: nat, openedAt: int, gauge: State)

  /** The next atomic operation of a call of Execute. */
  datatype Pc =
    | LoadState
    // Open: is the timeout over, and if so try to become HalfOpen.
    | LoadOpenedAt | SwapToHalfOpen | RecordToHalfOpen | GaugeHalfOpen
    // Closed path.
    | CallFn | AddFailure | SwapToOpen | StampTrip | StoreTrip(at: int) | RecordTrip | GaugeTrip | ClearFailures
    // Probe path: take the slot, run fn, give the slot back.
    | TakeSlot | Probe
    | SwapToReopen | StampReopen | StoreReopen(at: int) | ClearOnReopen | RecordReopen | GaugeReopen
    | AddSuccess | SwapToClosed | ClearFailuresOnClose | ClearSuccessesOnClose | RecordClose | GaugeClose
    | ReleaseSlot(ok: bool)
    | Done(verdict: Verdict)

  datatype Event =
    | Called(id: nat, ok: bool)
    | Bumped(id: nat, counter: Counter)
    | Cleared(id: nat, counter: Counter)
    | Moved(id: nat, from: State, to: State)
    | Recorded(id: nat, from: State, to: State)

  datatype Outcome = Outcome(shared: Shared, pc: Pc, event: Option<Event>)

  /** One atomic operation of call `id`. `now` is the clock and `ok` is fn's outcome; each
      is used only by the operations that read it. */
  function Effect(cfg: Config, g: Shared, id: nat, pc: Pc, now: int, ok: bool): Outcome {
    match pc
    case LoadState =>
      Outcome(g, if g.state == Open then LoadOpenedAt else if g.state == HalfOpen then TakeSlot else CallFn, None)
    case LoadOpenedAt =>
      Outcome(g, if now - g.openedAt < cfg.openTimeout then Done(Rejected) else SwapToHalfOpen, None)
    case SwapToHalfOpen =>
      if g.state == Open then Outcome(g.(state := HalfOpen), RecordToHalfOpen, Some(Moved(id, Open, HalfOpen)))
      else Outcome(g, TakeSlot, None)
    case RecordToHalfOpen => Outcome(g, GaugeHalfOpen, Some(Recorded(id, Open, HalfOpen)))
    case GaugeHalfOpen => Outcome(g.(gauge := HalfOpen), TakeSlot, None)

    case CallFn => Outcome(g, if ok then ClearFailures else AddFailure, Some(Called(id, ok)))
    case AddFailure =>
      var n := g.failures + 1;
      Outcome(g.(failures := n), if n >= cfg.failureThreshold then SwapToOpen else Done(Returned(false)),
              Some(Bumped(id, Failures)))
    case SwapToOpen =>
      if g.state == Closed then Outcome(g.(state := Open), StampTrip, Some(Moved(id, Closed, Open)))
      else Outcome(g, Done(Returned(false)), None)
    case StampTrip => Outcome(g, StoreTrip(now), None)
    case StoreTrip(at) => Outcome(g.(openedAt := at), RecordTrip, None)
    case RecordTrip => Outcome(g, GaugeTrip, Some(Recorded(id, Closed, Open)))
    case GaugeTrip => Outcome(g.(gauge := Open), Done(Returned(false)), None)
    case ClearFailures => Outcome(g.(failures := 0), Done(Returned(true)), Some(Cleared(id, Failures)))

    case TakeSlot =>
      if g.inFlight == 0 then Outcome(g.(inFlight := 1), Probe, None) else Outcome(g, Done(Rejected), None)
    case Probe => Outcome(g, if ok then AddSuccess else SwapToReopen, Some(Called(id, ok)))
    case SwapToReopen =>
      if g.state == HalfOpen then Outcome(g.(state := Open), StampReopen, Some(Moved(id, HalfOpen, Open)))
      else Outcome(g, ReleaseSlot(false), None)
    case StampReopen => Outcome(g, StoreReopen(now), None)
    case StoreReopen(at) => Outcome(g.(openedAt := at), ClearOnReopen, None)
    case ClearOnReopen => Outcome(g.(successes := 0), RecordReopen, Some(Cleared(id, Successes)))
    case RecordReopen => Outcome(g, GaugeReopen, Some(Recorded(id, HalfOpen, Open)))
    case GaugeReopen => Outcome(g.(gauge := Open), ReleaseSlot(false), None)
    case AddSuccess =>
      var n := g.successes + 1;
      Outcome(g.(successes := n), if n >= cfg.successThreshold then SwapToClosed else ReleaseSlot(true),
              Some(Bumped(id, Successes)))
    case SwapToClosed =>
      if g.state == HalfOpen then Outcome(g.(state := Closed), ClearFailuresOnClose, Some(Moved(id, HalfOpen, Closed)))
      else Outcome(g, ReleaseSlot(true), None)
    case ClearFailuresOnClose => Outcome(g.(failures := 0), ClearSuccessesOnClose, Some(Cleared(id, Failures)))
    case ClearSuccessesOnClose => Outcome(g.(successes := 0), RecordClose, Some(Cleared(id, Successes)))
    case RecordClose => Outcome(g, GaugeClose, Some(Recorded(id, HalfOpen, Closed)))
    case GaugeClose => Outcome(g.(gauge := Closed), ReleaseSlot(true), None)
    case ReleaseSlot(r) => Outcome(g.(inFlight := 0), Done(Returned(r)), None)
    case Done(_) => Outcome(g, pc, None)
  }

  // ----- The system -----

  /** Calls are numbered and never reused; `log` remembers everything that happened. */
  datatype System = System(shared: Shared, calls: map<nat, Pc>, log: seq<Event>)

  datatype Action = Begin(id: nat) | Advance(id: nat, now: int, ok: bool)

  const START := System(Shared(Closed, 0, 0, 0, 0, Closed), map[], [])

  predicate Enabled(s: System, a: Action) {
    match a
    case Begin(id) => id !in s.calls
    case Advance(id, _, _) => id in s.calls && !s.calls[id].Done?
  }

  function Apply(cfg: Config, s: System, a: Action): System
    requires Enabled(s, a)
  {
    match a
    case Begin(id) => s.(calls := s.calls[id := LoadState])
    case Advance(id, now, ok) =>
      Commit(s, id, Effect(cfg, s.shared, id, s.calls[id], now, ok))
  }

  function Commit(s: System, id: nat, o: Outcome): System {
    System(o.shared, s.calls[id := o.pc], if o.event.Some? then s.log + [o.event.value] else s.log)
  }

  /** The system after the actions, in order, if each is enabled in its turn. */
  function Exec(cfg: Config, actions: seq<Action>): Option<System> {
    if actions == [] then Some(START)
    else
      var last := actions[|actions| - 1];
      match Exec(cfg, actions[..|actions| - 1])
      case None => None
      case Some(s) => if Enabled(s, last) then Some(Apply(cfg, s, last)) else None
  }

  ghost predicate Reaches(cfg: Config, actions: seq<Action>, s: System) {
    Exec(cfg, actions) == Some(s)
  }

  ghost predicate Quiescent(s: System) {
    forall id :: id in s.calls ==> s.calls[id].Done?
  }

  // ----- The probe slot -----

  predicate Holding(pc: Pc) {
    pc.Probe? || pc.SwapToReopen? || pc.StampReopen? || pc.StoreReopen? || pc.ClearOnReopen? || pc.RecordReopen?
    || pc.GaugeReopen? || pc.AddSuccess? || pc.SwapToClosed? || pc.ClearFailuresOnClose?
    || pc.ClearSuccessesOnClose? || pc.RecordClose? || pc.GaugeClose? || pc.ReleaseSlot?
  }

  ghost predicate Holder(s: System, id: nat) {
    id in s.calls && Holding(s.calls[id])
  }

  /** At most one call holds the slot, and the flag says whether some call does. */
  ghost predicate SlotExclusive(s: System) {
    && (forall a, b :: Holder(s, a) && Holder(s, b) ==> a == b)
    && s.shared.inFlight <= 1
    && (s.shared.inFlight == 1 <==> exists a :: Holder(s, a))
  }

  lemma SlotEffect(cfg: Config, g: Shared, id: nat, pc: Pc, now: int, ok: bool)
    ensures var o := Effect(cfg, g, id, pc, now, ok);
      && (Holding(o.pc) && !Holding(pc) ==> g.inFlight == 0 && o.shared.inFlight == 1)
      && (Holding(pc) && !Holding(o.pc) ==> o.shared.inFlight == 0)
      && (Holding(o.pc) == Holding(pc) ==> o.shared.inFlight == g.inFlight)
      && (g.state == HalfOpen && o.shared.state != HalfOpen ==> Holding(pc))
      && (o.shared.successes != g.successes ==> Holding(pc))
  {
  }

  lemma SlotStep(cfg: Config, s: System, a: Action)
    requires SlotExclusive(s) && Enabled(s, a)
    ensures SlotExclusive(Apply(cfg, s, a))
  {
    var t := Apply(cfg, s, a);
    assert forall b :: b != a.id ==> (Holder(t, b) <==> Holder(s, b));
    if a.Advance? {
      SlotEffect(cfg, s.shared, a.id, s.calls[a.id], a.now, a.ok);
      assert Holder(s, a.id) <==> Holding(s.calls[a.id]);
      assert Holder(t, a.id) <==> Holding(t.calls[a.id]);
    } else {
      assert !Holder(s, a.id) && !Holder(t, a.id);
    }
    if t.shared.inFlight == 1 && !Holder(t, a.id) {
      var b :| Holder(s, b);
      assert Holder(t, b);
    }
    if x :| Holder(t, x) {
      assert x == a.id || Holder(s, x);
    }
  }

  // ----- What the log says -----

  function Moves(log: seq<Event>): multiset<(State, State)> {
    if log == [] then multiset{}
    else
      var e := log[|log| - 1];
      Moves(log[..|log| - 1]) + if e.Moved? then multiset{(e.from, e.to)} else multiset{}
  }

  function Records(log: seq<Event>): multiset<(State, State)> {
    if log == [] then multiset{}
    else
      var e := log[|log| - 1];
      Records(log[..|log| - 1]) + if e.Recorded? then multiset{(e.from, e.to)} else multiset{}
  }

  /** The calls that have bumped the counter since it was last cleared. */
  function BumpersSince(log: seq<Event>, c: Counter): set<nat> {
    if log == [] then {}
    else
      var e := log[|log| - 1];
      var before := BumpersSince(log[..|log| - 1], c);
      if e == Bumped(e.id, c) then before + {e.id}
      else if e == Cleared(e.id, c) then {}
      else before
  }

  /** The outcomes of the fn invocations made by the call, in order. */
  function Invocations(log: seq<Event>, id: nat): seq<bool> {
    if log == [] then []
    else
      var e := log[|log| - 1];
      Invocations(log[..|log| - 1], id) + if e.Called? && e.id == id then [e.ok] else []
  }

  lemma LogGrows(log: seq<Event>, e: Event)
    ensures (log + [e])[..|log|] == log
    ensures Moves(log + [e]) == Moves(log) + if e.Moved? then multiset{(e.from, e.to)} else multiset{}
    ensures Records(log + [e]) == Records(log) + if e.Recorded? then multiset{(e.from, e.to)} else multiset{}
  {
    assert (log + [e])[..|log|] == log;
  }

  // ----- Balance of transitions -----

  ghost predicate Balanced(s: System) {
    var m := Moves(s.log);
    && m[(Closed, Open)] == m[(HalfOpen, Closed)] + (if s.shared.state != Closed then 1 else 0)
    && m[(Open, HalfOpen)] ==
       m[(HalfOpen, Open)] + m[(HalfOpen, Closed)] + (if s.shared.state == HalfOpen then 1 else 0)
  }

  /** An operation changes the state exactly when it logs the move, along a legal edge. */
  ghost predicate MoveSound(g: Shared, id: nat, o: Outcome) {
    && (o.event.Some? ==> o.event.value.id == id)
    && (if o.event.Some? && o.event.value.Moved? then
          && o.event.value.from == g.state && o.event.value.to == o.shared.state
          && (g.state, o.shared.state) in {(Closed, Open), (Open, HalfOpen), (HalfOpen, Open), (HalfOpen, Closed)}
        else o.shared.state == g.state)
  }

  lemma MoveEffect(cfg: Config, g: Shared, id: nat, pc: Pc, now: int, ok: bool)
    ensures MoveSound(g, id, Effect(cfg, g, id, pc, now, ok))
  {
  }

  lemma BalanceStep(cfg: Config, s: System, a: Action)
    requires Balanced(s) && Enabled(s, a)
    ensures Balanced(Apply(cfg, s, a))
  {
    if a.Advance? {
      MoveEffect(cfg, s.shared, a.id, s.calls[a.id], a.now, a.ok);
      BalanceCommit(s, a.id, Effect(cfg, s.shared, a.id, s.calls[a.id], a.now, a.ok));
    }
  }

  lemma BalanceCommit(s: System, id: nat, o: Outcome)
    requires Balanced(s) && MoveSound(s.shared, id, o)
    ensures Balanced(Commit(s, id, o))
  {
    if o.event.Some? {
      LogGrows(s.log, o.event.value);
    }
  }

  // ----- Metrics trail the transitions -----

  /** The call has made this transition and not recorded it yet. */
  predicate Owes(pc: Pc, t: (State, State)) {
    || (t == (Open, HalfOpen) && pc.RecordToHalfOpen?)
    || (t == (Closed, Open) && (pc.StampTrip? || pc.StoreTrip? || pc.RecordTrip?))
    || (t == (HalfOpen, Open) && (pc.StampReopen? || pc.StoreReopen? || pc.ClearOnReopen? || pc.RecordReopen?))
    || (t == (HalfOpen, Closed) && (pc.ClearFailuresOnClose? || pc.ClearSuccessesOnClose? || pc.RecordClose?))
  }

  ghost function Owing(calls: map<nat, Pc>, t: (State, State)): set<nat> {
    set id | id in calls && Owes(calls[id], t)
  }

  ghost predicate AccountedFor(s: System, t: (State, State)) {
    Records(s.log)[t] + |Owing(s.calls, t)| == Moves(s.log)[t]
  }

  ghost predicate Accounted(s: System) {
    forall t :: AccountedFor(s, t)
  }

  /** A call owes a transition from making it until recording it. */
  ghost predicate OweSound(id: nat, pc: Pc, o: Outcome, t: (State, State)) {
    && (o.event == Some(Moved(id, t.0, t.1)) ==> !Owes(pc, t) && Owes(o.pc, t))
    && (o.event == Some(Recorded(id, t.0, t.1)) ==> Owes(pc, t) && !Owes(o.pc, t))
    && (o.event != Some(Moved(id, t.0, t.1)) && o.event != Some(Recorded(id, t.0, t.1)) ==>
          Owes(o.pc, t) == Owes(pc, t))
  }

  lemma OweUnlessLogged(cfg: Config, g: Shared, id: nat, pc: Pc, now: int, ok: bool, t: (State, State))
    ensures var o := Effect(cfg, g, id, pc, now, ok);
      o.event != Some(Moved(id, t.0, t.1)) && o.event != Some(Recorded(id, t.0, t.1)) ==>
        Owes(o.pc, t) == Owes(pc, t)
  {
  }

  lemma OweEffect(cfg: Config, g: Shared, id: nat, pc: Pc, now: int, ok: bool, t: (State, State))
    ensures OweSound(id, pc, Effect(cfg, g, id, pc, now, ok), t)
  {
    OweUnlessLogged(cfg, g, id, pc, now, ok, t);
  }

  /** Moving one call to another pc changes the owing set by that call only. */
  lemma OwingUpdate(calls: map<nat, Pc>, id: nat, pc: Pc, t: (State, State))
    ensures Owing(calls[id := pc], t) ==
            if Owes(pc, t) then Owing(calls, t) + {id} else Owing(calls, t) - {id}
  {
  }

  lemma AccountStep(cfg: Config, s: System, a: Action, t: (State, State))
    requires AccountedFor(s, t) && Enabled(s, a)
    ensures AccountedFor(Apply(cfg, s, a), t)
  {
    if a.Begin? {
      OwingUpdate(s.calls, a.id, LoadState, t);
      assert Owing(s.calls, t) - {a.id} == Owing(s.calls, t);
    } else {
      MoveEffect(cfg, s.shared, a.id, s.calls[a.id], a.now, a.ok);
      OweEffect(cfg, s.shared, a.id, s.calls[a.id], a.now, a.ok, t);
      AccountCommit(s, a.id, Effect(cfg, s.shared, a.id, s.calls[a.id], a.now, a.ok), t);
    }
  }

  lemma AccountCommit(s: System, id: nat, o: Outcome, t: (State, State))
    requires id in s.calls && AccountedFor(s, t)
    requires MoveSound(s.shared, id, o) && OweSound(id, s.calls[id], o, t)
    ensures AccountedFor(Commit(s, id, o), t)
  {
    OwingUpdate(s.calls, id, o.pc, t);
    OwingCounts(Owing(s.calls, t), id);
    assert id in Owing(s.calls, t) <==> Owes(s.calls[id], t);
    if o.event.Some? {
      LogCounts(s.log, o.event.value, t);
    }
  }

  lemma LogCounts(log: seq<Event>, e: Event, t: (State, State))
    ensures Moves(log + [e])[t] == Moves(log)[t] + if e == Moved(e.id, t.0, t.1) then 1 else 0
    ensures Records(log + [e])[t] == Records(log)[t] + if e == Recorded(e.id, t.0, t.1) then 1 else 0
  {
    LogGrows(log, e);
  }

  lemma OwingCounts(ids: set<nat>, id: nat)
    ensures id in ids ==> |ids - {id}| == |ids| - 1 && ids + {id} == ids
    ensures id !in ids ==> |ids + {id}| == |ids| + 1 && ids - {id} == ids
  {
  }

  // ----- Counters are histories -----

  /** What the call's pc says about the invocation it has made. */
  function FnOutcome(pc: Pc): Option<bool> {
    match pc
    case LoadState | LoadOpenedAt | SwapToHalfOpen | RecordToHalfOpen | GaugeHalfOpen => None
    case CallFn | TakeSlot | Probe => None
    case Done(Rejected) => None
    case Done(Returned(ok)) => Some(ok)
    case ReleaseSlot(ok) => Some(ok)
    case ClearFailures | AddSuccess | SwapToClosed | ClearFailuresOnClose | ClearSuccessesOnClose
       | RecordClose | GaugeClose => Some(true)
    case _ => Some(false)
  }

  /** The call has not bumped a counter and may still do so. */
  predicate MayBump(pc: Pc) {
    pc.LoadState? || pc.LoadOpenedAt? || pc.SwapToHalfOpen? || pc.RecordToHalfOpen? || pc.GaugeHalfOpen?
    || pc.CallFn? || pc.TakeSlot? || pc.Probe? || pc.AddFailure? || pc.AddSuccess?
  }

  function Value(g: Shared, c: Counter): nat {
    if c == Failures then g.failures else g.successes
  }

  ghost predicate NeverBumped(log: seq<Event>, id: nat) {
    forall k :: 0 <= k < |log| && log[k].Bumped? ==> log[k].id != id
  }

  /** The invocations of fn by the call are those its pc says, and it has not bumped a
      counter while it still may. */
  ghost predicate CallExplained(s: System, id: nat) {
    if id in s.calls then
      && Invocations(s.log, id) == AsSeq(FnOutcome(s.calls[id]))
      && (MayBump(s.calls[id]) ==> NeverBumped(s.log, id))
    else Invocations(s.log, id) == [] && NeverBumped(s.log, id)
  }

  /** The counter is the number of calls that bumped it since it was last cleared; a call
      bumps `failures` only after its fn failed, and `successes` only after it succeeded. */
  ghost predicate CounterExplained(s: System, c: Counter) {
    var bumpers := BumpersSince(s.log, c);
    && Value(s.shared, c) == |bumpers|
    && forall id :: id in bumpers ==> Invocations(s.log, id) == [c == Successes] && !NeverBumped(s.log, id)
  }

  ghost predicate CallsExplained(s: System) {
    forall id :: CallExplained(s, id)
  }

  ghost predicate AllCountersExplained(s: System) {
    forall c :: CounterExplained(s, c)
  }

  /** An operation changes the counter exactly as it logs, and a call bumps it at most once. */
  ghost predicate CounterSound(g: Shared, id: nat, pc: Pc, o: Outcome, c: Counter) {
    && Value(o.shared, c) ==
       (if o.event == Some(Bumped(id, c)) then Value(g, c) + 1
        else if o.event == Some(Cleared(id, c)) then 0 else Value(g, c))
    && (o.event == Some(Bumped(id, c)) ==>
          MayBump(pc) && !MayBump(o.pc) && FnOutcome(pc) == Some(c == Successes))
  }

  lemma CounterEffect(cfg: Config, g: Shared, id: nat, pc: Pc, now: int, ok: bool, c: Counter)
    ensures CounterSound(g, id, pc, Effect(cfg, g, id, pc, now, ok), c)
  {
  }

  ghost predicate InvocationSound(pc: Pc, o: Outcome) {
    && (if o.event.Some? && o.event.value.Called? then
          MayBump(pc) && FnOutcome(pc) == None && FnOutcome(o.pc) == Some(o.event.value.ok)
        else FnOutcome(o.pc) == FnOutcome(pc))
    && (MayBump(o.pc) ==> MayBump(pc))
  }

  lemma BumpEffect(cfg: Config, g: Shared, id: nat, pc: Pc, now: int, ok: bool)
    ensures var o := Effect(cfg, g, id, pc, now, ok);
      (MayBump(o.pc) ==> MayBump(pc)) && (o.event.Some? && o.event.value.Called? ==> MayBump(pc))
  {
  }

  lemma FnEffect(cfg: Config, g: Shared, id: nat, pc: Pc, now: int, ok: bool)
    ensures var o := Effect(cfg, g, id, pc, now, ok);
      if o.event.Some? && o.event.value.Called? then
        FnOutcome(pc) == None && FnOutcome(o.pc) == Some(o.event.value.ok)
      else FnOutcome(o.pc) == FnOutcome(pc)
  {
  }

  lemma InvocationEffect(cfg: Config, g: Shared, id: nat, pc: Pc, now: int, ok: bool)
    ensures InvocationSound(pc, Effect(cfg, g, id, pc, now, ok))
  {
    BumpEffect(cfg, g, id, pc, now, ok);
    FnEffect(cfg, g, id, pc, now, ok);
  }

  lemma InvocationsGrow(log: seq<Event>, e: Event, id: nat)
    ensures Invocations(log + [e], id) ==
            if e.Called? && e.id == id then Invocations(log, id) + [e.ok] else Invocations(log, id)
  {
    assert (log + [e])[..|log|] == log;
  }

  lemma BumpersGrow(log: seq<Event>, e: Event, c: Counter)
    ensures BumpersSince(log + [e], c) ==
            if e == Bumped(e.id, c) then BumpersSince(log, c) + {e.id}
            else if e == Cleared(e.id, c) then {} else BumpersSince(log, c)
  {
    assert (log + [e])[..|log|] == log;
  }

  lemma NeverBumpedGrows(log: seq<Event>, e: Event, id: nat)
    ensures NeverBumped(log + [e], id) <==> NeverBumped(log, id) && !(e.Bumped? && e.id == id)
  {
    if NeverBumped(log + [e], id) {
      assert (log + [e])[|log|] == e;
      forall k | 0 <= k < |log| && log[k].Bumped? ensures log[k].id != id {
        assert (log + [e])[k] == log[k];
      }
    }
  }

  lemma CallsExplainedStep(cfg: Config, s: System, a: Action)
    requires CallsExplained(s) && Enabled(s, a)
    ensures CallsExplained(Apply(cfg, s, a))
  {
    forall id: nat ensures CallExplained(Apply(cfg, s, a), id) {
      assert CallExplained(s, id);
      if a.Advance? {
        MoveEffect(cfg, s.shared, a.id, s.calls[a.id], a.now, a.ok);
        CounterEffect(cfg, s.shared, a.id, s.calls[a.id], a.now, a.ok, Failures);
        CounterEffect(cfg, s.shared, a.id, s.calls[a.id], a.now, a.ok, Successes);
        InvocationEffect(cfg, s.shared, a.id, s.calls[a.id], a.now, a.ok);
        CallExplainedCommit(s, a.id, Effect(cfg, s.shared, a.id, s.calls[a.id], a.now, a.ok), id);
      }
    }
  }

  lemma CallExplainedCommit(s: System, mover: nat, o: Outcome, id: nat)
    requires mover in s.calls && CallExplained(s, id)
    requires MoveSound(s.shared, mover, o) && InvocationSound(s.calls[mover], o)
    requires forall c :: CounterSound(s.shared, mover, s.calls[mover], o, c)
    ensures CallExplained(Commit(s, mover, o), id)
  {
    if o.event.Some? {
      var e := o.event.value;
      if e.Bumped? {
        assert CounterSound(s.shared, mover, s.calls[mover], o, e.counter);
      }
      InvocationsGrow(s.log, e, id);
      NeverBumpedGrows(s.log, e, id);
    }
  }

  lemma CountersExplainedStep(cfg: Config, s: System, a: Action)
    requires CallsExplained(s) && AllCountersExplained(s) && Enabled(s, a)
    ensures AllCountersExplained(Apply(cfg, s, a))
  {
    forall c ensures CounterExplained(Apply(cfg, s, a), c) {
      assert CounterExplained(s, c);
      if a.Advance? {
        assert CallExplained(s, a.id);
        MoveEffect(cfg, s.shared, a.id, s.calls[a.id], a.now, a.ok);
        CounterEffect(cfg, s.shared, a.id, s.calls[a.id], a.now, a.ok, c);
        InvocationEffect(cfg, s.shared, a.id, s.calls[a.id], a.now, a.ok);
        CounterExplainedCommit(s, a.id, Effect(cfg, s.shared, a.id, s.calls[a.id], a.now, a.ok), c);
      }
    }
  }

  lemma CounterExplainedCommit(s: System, id: nat, o: Outcome, c: Counter)
    requires id in s.calls && CounterExplained(s, c) && CallExplained(s, id)
    requires MoveSound(s.shared, id, o) && InvocationSound(s.calls[id], o)
    requires CounterSound(s.shared, id, s.calls[id], o, c)
    ensures CounterExplained(Commit(s, id, o), c)
  {
    if o.event.Some? {
      BumpersCounted(s, id, o, c);
      forall m | m in BumpersSince(s.log + [o.event.value], c)
        ensures Invocations(s.log + [o.event.value], m) == [c == Successes]
        ensures !NeverBumped(s.log + [o.event.value], m)
      {
        BumpersGrow(s.log, o.event.value, c);
        BumperExplained(s, id, o.event.value, c, m);
      }
    }
  }

  /** The counter stays the number of calls that it counts. */
  lemma BumpersCounted(s: System, id: nat, o: Outcome, c: Counter)
    requires id in s.calls && CounterExplained(s, c) && CallExplained(s, id)
    requires MoveSound(s.shared, id, o) && CounterSound(s.shared, id, s.calls[id], o, c) && o.event.Some?
    ensures Value(o.shared, c) == |BumpersSince(s.log + [o.event.value], c)|
  {
    BumpersGrow(s.log, o.event.value, c);
    if o.event.value == Bumped(id, c) {
      NotCountedYet(s, id, c);
    }
  }

  lemma NotCountedYet(s: System, id: nat, c: Counter)
    requires id in s.calls && CounterExplained(s, c) && CallExplained(s, id) && MayBump(s.calls[id])
    ensures id !in BumpersSince(s.log, c)
  {
  }

  /** A call counted by the counter keeps its outcome. */
  lemma BumperExplained(s: System, id: nat, e: Event, c: Counter, m: nat)
    requires e.id == id && (m in BumpersSince(s.log, c) || (m == id && e == Bumped(id, c)))
    requires m in BumpersSince(s.log, c) ==> Invocations(s.log, m) == [c == Successes] && !NeverBumped(s.log, m)
    requires e.Called? ==> NeverBumped(s.log, id)
    requires e == Bumped(id, c) ==> Invocations(s.log, id) == [c == Successes]
    ensures Invocations(s.log + [e], m) == [c == Successes] && !NeverBumped(s.log + [e], m)
  {
    InvocationsGrow(s.log, e, m);
    NeverBumpedGrows(s.log, e, m);
  }

  // ----- Transitions are earned -----

  function Threshold(cfg: Config, c: Counter): int {
    if c == Failures then cfg.failureThreshold else cfg.successThreshold
  }

  /** The transition that a counter at its threshold lets a call attempt. */
  predicate Attempting(pc: Pc, c: Counter) {
    if c == Failures then pc.SwapToOpen? else pc.SwapToClosed?
  }

  predicate Achieved(e: Event, c: Counter) {
    e.Moved? && (e.from, e.to) == if c == Failures then (Closed, Open) else (HalfOpen, Closed)
  }

  /** Before event i, the call bumped the counter and found at least `threshold` calls
      counted since the counter was last cleared. */
  ghost predicate Earned(log: seq<Event>, i: nat, id: nat, c: Counter, threshold: int)
    requires i <= |log|
  {
    exists j :: 0 <= j < i && log[j] == Bumped(id, c) && |BumpersSince(log[..j + 1], c)| >= threshold
  }

  ghost predicate TransitionsEarned(cfg: Config, s: System, c: Counter) {
    && (forall id :: id in s.calls && Attempting(s.calls[id], c) ==>
          Earned(s.log, |s.log|, id, c, Threshold(cfg, c)))
    && (forall i :: 0 <= i < |s.log| && Achieved(s.log[i], c) ==>
          Earned(s.log, i, s.log[i].id, c, Threshold(cfg, c)))
  }

  lemma EarnedLater(log: seq<Event>, longer: seq<Event>, i: nat, k: nat, id: nat, c: Counter, threshold: int)
    requires log <= longer && i <= |log| && i <= k <= |longer| && Earned(log, i, id, c, threshold)
    ensures Earned(longer, k, id, c, threshold)
  {
    var j :| 0 <= j < i && log[j] == Bumped(id, c) && |BumpersSince(log[..j + 1], c)| >= threshold;
    assert longer[..j + 1] == log[..j + 1];
  }

  ghost predicate EarnSound(cfg: Config, id: nat, pc: Pc, o: Outcome, c: Counter) {
    && (Attempting(o.pc, c) ==> o.event == Some(Bumped(id, c)) && Value(o.shared, c) >= Threshold(cfg, c))
    && (o.event.Some? && Achieved(o.event.value, c) ==> Attempting(pc, c) && o.event.value.id == id)
  }

  lemma EarnEffect(cfg: Config, g: Shared, id: nat, pc: Pc, now: int, ok: bool, c: Counter)
    ensures EarnSound(cfg, id, pc, Effect(cfg, g, id, pc, now, ok), c)
  {
  }

  lemma EarnedStep(cfg: Config, s: System, a: Action, c: Counter)
    requires TransitionsEarned(cfg, s, c) && Enabled(s, a)
    requires CounterExplained(Apply(cfg, s, a), c)
    ensures TransitionsEarned(cfg, Apply(cfg, s, a), c)
  {
    if a.Advance? {
      EarnEffect(cfg, s.shared, a.id, s.calls[a.id], a.now, a.ok, c);
      EarnedCommit(cfg, s, a.id, Effect(cfg, s.shared, a.id, s.calls[a.id], a.now, a.ok), c);
    }
  }

  lemma EarnedCommit(cfg: Config, s: System, mover: nat, o: Outcome, c: Counter)
    requires mover in s.calls && TransitionsEarned(cfg, s, c)
    requires EarnSound(cfg, mover, s.calls[mover], o, c) && CounterExplained(Commit(s, mover, o), c)
    ensures TransitionsEarned(cfg, Commit(s, mover, o), c)
  {
    var s' := Commit(s, mover, o);
    forall id | id in s'.calls && Attempting(s'.calls[id], c)
      ensures Earned(s'.log, |s'.log|, id, c, Threshold(cfg, c))
    {
      if id == mover {
        assert s'.log[|s.log|] == Bumped(id, c) && s'.log[..|s.log| + 1] == s'.log;
      } else {
        EarnedLater(s.log, s'.log, |s.log|, |s'.log|, id, c, Threshold(cfg, c));
      }
    }
    forall i | 0 <= i < |s'.log| && Achieved(s'.log[i], c)
      ensures Earned(s'.log, i, s'.log[i].id, c, Threshold(cfg, c))
    {
      EarnedLater(s.log, s'.log, i, i, s'.log[i].id, c, Threshold(cfg, c));
    }
  }

  // ----- Every interleaving -----

  ghost predicate Invariant(cfg: Config, s: System) {
    && SlotExclusive(s) && Balanced(s) && Accounted(s)
    && CallsExplained(s) && AllCountersExplained(s)
    && forall c :: TransitionsEarned(cfg, s, c)
  }

  lemma InvariantAtStart(cfg: Config)
    ensures Invariant(cfg, START)
  {
    forall t ensures AccountedFor(START, t) {
      assert Owing(START.calls, t) == {};
    }
  }

  lemma {:induction false} InvariantAlways(cfg: Config, actions: seq<Action>, s: System)
    requires Reaches(cfg, actions, s)
    ensures Invariant(cfg, s)
  {
    if actions == [] {
      InvariantAtStart(cfg);
    } else {
      var last := actions[|actions| - 1];
      var before := Exec(cfg, actions[..|actions| - 1]).value;
      InvariantAlways(cfg, actions[..|actions| - 1], before);
      SlotStep(cfg, before, last);
      BalanceStep(cfg, before, last);
      forall t ensures AccountedFor(s, t) {
        assert AccountedFor(before, t);
        AccountStep(cfg, before, last, t);
      }
      CallsExplainedStep(cfg, before, last);
      CountersExplainedStep(cfg, before, last);
      forall c ensures TransitionsEarned(cfg, s, c) {
        assert CounterExplained(s, c);
        EarnedStep(cfg, before, last, c);
      }
    }
  }

  /** Mutual exclusion of probes, and what only the slot holder may do, whatever the interleaving. */
  lemma ProbeSlotIsExclusive(cfg: Config, actions: seq<Action>, s: System, a: Action)
    requires Reaches(cfg, actions, s) && Enabled(s, a)
    ensures forall x, y :: Holder(s, x) && Holder(s, y) ==> x == y
    ensures s.shared.inFlight == (if exists x :: Holder(s, x) then 1 else 0)
    ensures s.shared.state == HalfOpen && Apply(cfg, s, a).shared.state != HalfOpen ==> Holder(s, a.id)
    ensures Apply(cfg, s, a).shared.successes != s.shared.successes ==> Holder(s, a.id)
  {
    InvariantAlways(cfg, actions, s);
    if a.Advance? {
      SlotEffect(cfg, s.shared, a.id, s.calls[a.id], a.now, a.ok);
    }
  }

  /** Successful transitions balance in every state, and when no call is in progress the
      recorded metrics are exactly the transitions that happened. */
  lemma TransitionsBalance(cfg: Config, actions: seq<Action>, s: System)
    requires Reaches(cfg, actions, s)
    ensures var m := Moves(s.log);
      && m[(Closed, Open)] == m[(HalfOpen, Closed)] + (if s.shared.state != Closed then 1 else 0)
      && m[(Open, HalfOpen)] ==
         m[(HalfOpen, Open)] + m[(HalfOpen, Closed)] + (if s.shared.state == HalfOpen then 1 else 0)
    ensures Records(s.log) <= Moves(s.log)
    ensures Quiescent(s) ==> Records(s.log) == Moves(s.log)
  {
    InvariantAlways(cfg, actions, s);
    forall t
      ensures Records(s.log)[t] <= Moves(s.log)[t]
      ensures Quiescent(s) ==> Records(s.log)[t] == Moves(s.log)[t]
    {
      NothingOwedAtRest(s, t);
    }
  }

  lemma NothingOwedAtRest(s: System, t: (State, State))
    requires Accounted(s)
    ensures Records(s.log)[t] <= Moves(s.log)[t]
    ensures Quiescent(s) ==> Records(s.log)[t] == Moves(s.log)[t]
  {
    assert AccountedFor(s, t);
    if Quiescent(s) {
      assert Owing(s.calls, t) == {};
    }
  }

  /** `failures` and `successes` count distinct calls, each with the outcome it stands for. */
  lemma CountersAreHistories(cfg: Config, actions: seq<Action>, s: System)
    requires Reaches(cfg, actions, s)
    ensures s.shared.failures == |BumpersSince(s.log, Failures)|
    ensures s.shared.successes == |BumpersSince(s.log, Successes)|
    ensures forall id :: id in BumpersSince(s.log, Failures) ==> Invocations(s.log, id) == [false]
    ensures forall id :: id in BumpersSince(s.log, Successes) ==> Invocations(s.log, id) == [true]
  {
    InvariantAlways(cfg, actions, s);
    assert CounterExplained(s, Failures) && CounterExplained(s, Successes);
  }

  /** Every trip was earned by FailureThreshold counted failures, and every close by
      SuccessThreshold counted successes, as seen by the call that made it. */
  lemma TransitionsAreEarned(cfg: Config, actions: seq<Action>, s: System, i: nat)
    requires Reaches(cfg, actions, s) && i < |s.log|
    ensures s.log[i] == Moved(s.log[i].id, Closed, Open) ==>
              Earned(s.log, i, s.log[i].id, Failures, cfg.failureThreshold)
    ensures s.log[i] == Moved(s.log[i].id, HalfOpen, Closed) ==>
              Earned(s.log, i, s.log[i].id, Successes, cfg.successThreshold)
  {
    InvariantAlways(cfg, actions, s);
    assert TransitionsEarned(cfg, s, Failures) && TransitionsEarned(cfg, s, Successes);
  }

  /** Execute invokes fn at most once and returns fn's own outcome, or ErrCircuitOpen
      exactly when it did not invoke it. */
  lemma FnAtMostOnce(cfg: Config, actions: seq<Action>, s: System, id: nat)
    requires Reaches(cfg, actions, s) && id in s.calls
    ensures |Invocations(s.log, id)| <= 1
    ensures s.calls[id] == Done(Rejected) ==> Invocations(s.log, id) == []
    ensures forall ok :: s.calls[id] == Done(Returned(ok)) ==> Invocations(s.log, id) == [ok]
  {
    InvariantAlways(cfg, actions, s);
    VerdictExplained(s, id);
  }

  lemma VerdictExplained(s: System, id: nat)
    requires id in s.calls && CallExplained(s, id)
    ensures |Invocations(s.log, id)| <= 1
    ensures s.calls[id] == Done(Rejected) ==> Invocations(s.log, id) == []
    ensures forall ok :: s.calls[id] == Done(Returned(ok)) ==> Invocations(s.log, id) == [ok]
  {
    var invocations := AsSeq(FnOutcome(s.calls[id]));
    assert |invocations| <= 1;
  }

  // ----- Execute is wait-free -----

  /** A bound on the operations the call has still to perform. */
  function Remaining(pc: Pc): nat {
    match pc
    case LoadState => 15
    case LoadOpenedAt => 14
    case SwapToHalfOpen => 13
    case RecordToHalfOpen => 12
    case GaugeHalfOpen => 11
    case TakeSlot => 10
    case Probe => 9
    case SwapToReopen => 8
    case AddSuccess => 8
    case CallFn => 8
    case StampReopen | SwapToClosed | AddFailure => 7
    case StoreReopen(_) | ClearFailuresOnClose | SwapToOpen => 6
    case ClearOnReopen | ClearSuccessesOnClose | StampTrip => 5
    case RecordReopen | RecordClose | StoreTrip(_) => 4
    case GaugeReopen | GaugeClose | RecordTrip => 3
    case ReleaseSlot(_) | GaugeTrip => 2
    case ClearFailures => 1
    case Done(_) => 0
  }

  /** Each operation of a call brings it nearer to its end, whatever the others do. */
  lemma WaitFree(cfg: Config, g: Shared, id: nat, pc: Pc, now: int, ok: bool)
    requires !pc.Done?
    ensures Remaining(Effect(cfg, g, id, pc, now, ok).pc) < Remaining(pc)
  {
  }

  /** The operations that the call has performed. */
  function Operations(actions: seq<Action>, id: nat): nat {
    if actions == [] then 0
    else
      var last := actions[|actions| - 1];
      Operations(actions[..|actions| - 1], id) + if last.Advance? && last.id == id then 1 else 0
  }

  /** Execute is wait-free: in every interleaving a call performs at most 15 operations. */
  lemma {:induction false} CallsAreShort(cfg: Config, actions: seq<Action>, s: System, id: nat)
    requires Reaches(cfg, actions, s)
    ensures Operations(actions, id) <= if id in s.calls then 15 - Remaining(s.calls[id]) else 0
  {
    if actions != [] {
      var n := |actions| - 1;
      var last, before := actions[n], Exec(cfg, actions[..n]).value;
      CallsAreShort(cfg, actions[..n], before, id);
      if last.Advance? {
        WaitFree(cfg, before.shared, last.id, before.calls[last.id], last.now, last.ok);
      }
    }
  }
}
