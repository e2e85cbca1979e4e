/** Runs of the breaker in which calls do not overlap: each is a sequential history, and each
    keeps the three guarantees. */
module BreakerSerial {
  import opened BreakerHistory
  import opened BreakerInterleaved
  import opened BreakerRuns
  import opened BreakerBridge
  import opened Tally

  // ----- The call whose turn it is -----

  /** The pc of the call in progress; when there is none, that of a call that has ended. */
  ghost function Turn(s: System): Pc {
    if exists id :: id in InProgress(s) then var id :| id in InProgress(s); s.calls[id] else Done(Rejected)
  }

  lemma OnlyOne(ids: set<nat>, a: nat, b: nat)
    requires |ids| <= 1 && a in ids && b in ids
    ensures a == b
  {
    SubsetSmaller({a, b}, ids);
  }

  /** A call that moves has ended, and then it is nobody's turn, or it is still its turn. */
  ghost predicate HasMoved(s: System, t: System, id: nat, pc: Pc) {
    && InProgress(s) == {id} && Turn(s) == s.calls[id]
    && if pc.Done? then InProgress(t) == {} && Turn(t) == Done(Rejected) else InProgress(t) == {id} && Turn(t) == pc
  }

  lemma TurnBegins(s: System, id: nat, t: System)
    requires id !in s.calls && t == s.(calls := s.calls[id := LoadState]) && |InProgress(t)| <= 1
    ensures InProgress(s) == {} && Turn(s) == Done(Rejected)
    ensures InProgress(t) == {id} && Turn(t) == LoadState
  {
    ProgressUpdate(s, id, LoadState, t);
    forall a | a in InProgress(t) ensures a == id {
      OnlyOne(InProgress(t), a, id);
    }
  }

  lemma TurnMoves(s: System, id: nat, o: Outcome)
    requires id in InProgress(s) && |InProgress(s)| <= 1
    ensures HasMoved(s, Commit(s, id, o), id, o.pc)
  {
    ProgressUpdate(s, id, o.pc, Commit(s, id, o));
    forall a | a in InProgress(s) ensures a == id {
      OnlyOne(InProgress(s), a, id);
    }
  }

  // ----- The history behind a run -----

  predicate ReadFinish(pc: Pc) {
    pc.StoreTrip? || pc.RecordTrip? || pc.GaugeTrip? || pc.StoreReopen? || pc.ClearOnReopen? || pc.RecordReopen?
    || pc.GaugeReopen? || pc.ReleaseSlot? || pc.Done?
  }

  /** What is known of a call after one of its operations. */
  function Learn(call: Call, pc: Pc, now: int, ok: bool): Call {
    Call(if ReadStart(pc) then call.start else now, if ReadFinish(pc) then call.finish else now,
         if FnOutcome(pc).Some? then call.ok else ok)
  }

  /** The calls agree in what has been read at this point. */
  predicate Agree(pc: Pc, a: Call, b: Call) {
    (ReadStart(pc) ==> a.start == b.start) && (ReadFinish(pc) ==> a.finish == b.finish)
    && (FnOutcome(pc).Some? ==> a.ok == b.ok)
  }

  /** Whatever the call has still to read, it ends as if it had run alone from its beginning. */
  ghost predicate OnTrack(cfg: Config, g0: Shared, g: Shared, pc: Pc, call: Call) {
    forall c :: Agree(pc, call, c) ==> Solo(cfg, g, pc, c) == Solo(cfg, g0, LoadState, c)
  }

  lemma LearnedAgrees(cfg: Config, g: Shared, id: nat, pc: Pc, call: Call, now: int, ok: bool, c: Call)
    requires !pc.Done? && Agree(Effect(cfg, g, id, pc, now, ok).pc, Learn(call, pc, now, ok), c)
    ensures Agree(pc, call, c)
    ensures pc.StampTrip? || pc.StampReopen? ==> c.finish == now
    ensures pc.CallFn? || pc.Probe? ==> c.ok == ok
    ensures pc.LoadOpenedAt? ==> c.start == now
  {
  }

  /** An operation depends on no more of the clock and of fn than it reads. */
  lemma EffectReads(cfg: Config, g: Shared, id: nat, pc: Pc, now: int, ok: bool, c: Call)
    requires pc.LoadOpenedAt? ==> c.start == now
    requires pc.StampTrip? || pc.StampReopen? ==> c.finish == now
    requires pc.CallFn? || pc.Probe? ==> c.ok == ok
    ensures var o, alone := Effect(cfg, g, id, pc, now, ok), Effect(cfg, g, 0, pc, Clock(pc, c), c.ok);
            alone.shared == o.shared && alone.pc == o.pc
  {
  }

  lemma StaysOnTrack(cfg: Config, g0: Shared, g: Shared, id: nat, pc: Pc, call: Call, now: int, ok: bool)
    requires !pc.Done? && OnTrack(cfg, g0, g, pc, call)
    ensures var o := Effect(cfg, g, id, pc, now, ok); OnTrack(cfg, g0, o.shared, o.pc, Learn(call, pc, now, ok))
  {
    var o := Effect(cfg, g, id, pc, now, ok);
    forall c | Agree(o.pc, Learn(call, pc, now, ok), c)
      ensures Solo(cfg, o.shared, o.pc, c) == Solo(cfg, g0, LoadState, c)
    {
      LearnedAgrees(cfg, g, id, pc, call, now, ok, c);
      EffectReads(cfg, g, id, pc, now, ok, c);
      WaitFree(cfg, g, 0, pc, Clock(pc, c), c.ok);
      assert Solo(cfg, g, pc, c) == Solo(cfg, o.shared, o.pc, c);
    }
  }

  /** The calls that have ended are those of the history, in order, with their verdicts. */
  ghost predicate Ended(cfg: Config, s: System, ids: seq<nat>, calls: seq<Call>) {
    && |ids| == |calls|
    && (forall i, j :: 0 <= i < j < |ids| ==> ids[i] != ids[j])
    && (forall id :: id in s.calls && s.calls[id].Done? <==> id in ids)
    && (forall i: nat :: i < |ids| ==> s.calls[ids[i]] == Done(VerdictOf(cfg, calls, i)))
  }

  ghost predicate Rested(cfg: Config, g: Shared, calls: seq<Call>) {
    Core(g) == Run(cfg, calls) && g.inFlight == 0 && g.gauge == g.state
  }

  /** g0 is the shared state that the history leaves, and that the call in progress found. */
  ghost predicate TellsHistory(cfg: Config, s: System, ids: seq<nat>, calls: seq<Call>, g0: Shared, call: Call) {
    && Ended(cfg, s, ids, calls) && Rested(cfg, g0, calls)
    && if InProgress(s) == {} then s.shared == g0 else OnTrack(cfg, g0, s.shared, Turn(s), call)
  }

  /** The calls come one after the other up to the instant, and so does the one in progress. */
  ghost predicate Timely(calls: seq<Call>, pc: Pc, call: Call, to: int) {
    && Sequential(calls) && (forall i :: 0 <= i < |calls| ==> calls[i].finish <= to)
    && (!pc.LoadState? && !pc.Done? ==>
          call.start <= call.finish <= to && forall i :: 0 <= i < |calls| ==> calls[i].finish <= call.start)
  }

  lemma TimelyMoves(calls: seq<Call>, pc: Pc, call: Call, to: int, now: int, ok: bool, pc': Pc)
    requires Timely(calls, pc, call, to) && to <= now && !pc.Done?
    ensures var next := Learn(call, pc, now, ok);
            if pc'.Done? then Timely(calls + [next], pc', next, now) else Timely(calls, pc', next, now)
  {
    var next := Learn(call, pc, now, ok);
    assert next.start <= next.finish <= now;
    assert forall i :: 0 <= i < |calls| ==> calls[i].finish <= next.start;
  }

  lemma ExplainedBegins(
    cfg: Config, s: System, ids: seq<nat>, calls: seq<Call>, g0: Shared, call: Call, id: nat, t: System)
    requires TellsHistory(cfg, s, ids, calls, g0, call)
    requires id !in s.calls && t == s.(calls := s.calls[id := LoadState]) && |InProgress(t)| <= 1
    ensures TellsHistory(cfg, t, ids, calls, g0, call)
  {
    TurnBegins(s, id, t);
  }

  lemma ExplainedMoves(cfg: Config, s: System, ids: seq<nat>, calls: seq<Call>, g0: Shared, call: Call,
                       id: nat, now: int, ok: bool)
    requires TellsHistory(cfg, s, ids, calls, g0, call) && id in InProgress(s) && |InProgress(s)| <= 1
    ensures var o, next := Effect(cfg, s.shared, id, s.calls[id], now, ok), Learn(call, s.calls[id], now, ok);
      if o.pc.Done? then TellsHistory(cfg, Commit(s, id, o), ids + [id], calls + [next], o.shared, next)
      else TellsHistory(cfg, Commit(s, id, o), ids, calls, g0, next)
  {
    var o, next := Effect(cfg, s.shared, id, s.calls[id], now, ok), Learn(call, s.calls[id], now, ok);
    TurnMoves(s, id, o);
    StaysOnTrack(cfg, g0, s.shared, id, s.calls[id], call, now, ok);
    if o.pc.Done? {
      assert Solo(cfg, o.shared, o.pc, next) == Solo(cfg, g0, LoadState, next);
      SoloIsStep(cfg, g0, next);
      RestedNext(cfg, g0, calls, next, o.shared);
      EndedNext(cfg, s, ids, calls, id, next, o);
    }
  }

  lemma RestedNext(cfg: Config, g0: Shared, calls: seq<Call>, next: Call, g: Shared)
    requires Rested(cfg, g0, calls) && Core(g) == Step(cfg, Core(g0), next) && g.inFlight == 0 && g.gauge == g.state
    ensures Rested(cfg, g, calls + [next])
  {
    assert (calls + [next])[..|calls|] == calls;
  }

  lemma EndedNext(cfg: Config, s: System, ids: seq<nat>, calls: seq<Call>, id: nat, next: Call, o: Outcome)
    requires Ended(cfg, s, ids, calls) && id in InProgress(s) && o.pc.Done?
    requires o.pc.verdict == if Admits(cfg, Run(cfg, calls), next) then Returned(next.ok) else Rejected
    ensures Ended(cfg, Commit(s, id, o), ids + [id], calls + [next])
  {
    var all, t := calls + [next], Commit(s, id, o);
    assert all[..|calls|] == calls;
    forall i: nat | i < |ids| + 1 ensures t.calls[(ids + [id])[i]] == Done(VerdictOf(cfg, all, i)) {
      if i < |ids| {
        VerdictStable(cfg, all, |calls|, i);
      }
    }
  }

  /** The history of a run in which calls do not overlap, with what is known of the call in
      progress; on a clock that never goes back its calls come one after the other. */
  lemma {:induction false} HistoryOf(cfg: Config, actions: seq<Action>, s: System, from: int, to: int)
    returns (ids: seq<nat>, calls: seq<Call>, g0: Shared, call: Call)
    requires Reaches(cfg, actions, s) && AtMost(cfg, actions, 1)
    ensures TellsHistory(cfg, s, ids, calls, g0, call)
    ensures Clocked(actions, from, to) ==> Timely(calls, Turn(s), call, to)
  {
    if actions == [] {
      return [], [], START.shared, Call(0, 0, false);
    }
    var n := |actions| - 1;
    var a, before := actions[n], Exec(cfg, actions[..n]).value;
    AtMostOfPrefix(cfg, actions, n, 1);
    AtMostNow(cfg, actions, s, 1);
    AtMostNow(cfg, actions[..n], before, 1);
    ids, calls, g0, call := HistoryOf(cfg, actions[..n], before, from, if a.Advance? then a.now else to);
    if a.Begin? {
      ExplainedBegins(cfg, before, ids, calls, g0, call, a.id, s);
      TurnBegins(before, a.id, s);
    } else {
      ids, calls, g0, call := HistoryMoves(cfg, before, ids, calls, g0, call, a, a.now);
    }
  }

  lemma HistoryMoves(
    cfg: Config, s: System, ids: seq<nat>, calls: seq<Call>, g0: Shared, call: Call, a: Action, to: int)
    returns (ids': seq<nat>, calls': seq<Call>, g0': Shared, call': Call)
    requires TellsHistory(cfg, s, ids, calls, g0, call) && |InProgress(s)| <= 1
    requires a.Advance? && Enabled(s, a) && to <= a.now
    ensures TellsHistory(cfg, Apply(cfg, s, a), ids', calls', g0', call')
    ensures Timely(calls, Turn(s), call, to) ==> Timely(calls', Turn(Apply(cfg, s, a)), call', a.now)
  {
    var pc := s.calls[a.id];
    var o := Effect(cfg, s.shared, a.id, pc, a.now, a.ok);
    call' := Learn(call, pc, a.now, a.ok);
    ExplainedMoves(cfg, s, ids, calls, g0, call, a.id, a.now, a.ok);
    TurnMoves(s, a.id, o);
    if Timely(calls, pc, call, to) {
      TimelyMoves(calls, pc, call, to, a.now, a.ok, o.pc);
    }
    ids', calls', g0' := ids, calls, g0;
    if o.pc.Done? {
      ids', calls', g0' := ids + [a.id], calls + [call'], o.shared;
    }
  }

  /** Every run in which calls do not overlap is a sequential history: when no call is in
      progress, the shared state is what the sequential machine makes of the calls, each call
      has the sequential verdict, the slot is free and the gauge shows the state. If the clock
      never goes back, the calls of the history come one after the other. */
  lemma SerialRunsAreSequential(cfg: Config, actions: seq<Action>, s: System, from: int, to: int)
    returns (ids: seq<nat>, calls: seq<Call>)
    requires Reaches(cfg, actions, s) && AtMost(cfg, actions, 1) && Quiescent(s)
    ensures Core(s.shared) == Run(cfg, calls) && s.shared.inFlight == 0 && s.shared.gauge == s.shared.state
    ensures |ids| == |calls| && forall i, j :: 0 <= i < j < |ids| ==> ids[i] != ids[j]
    ensures forall id :: id in s.calls <==> id in ids
    ensures forall i: nat :: i < |ids| ==> s.calls[ids[i]] == Done(VerdictOf(cfg, calls, i))
    ensures Clocked(actions, from, to) ==> Sequential(calls)
  {
    var g0, call;
    ids, calls, g0, call := HistoryOf(cfg, actions, s, from, to);
    assert InProgress(s) == {};
  }

  // ----- The state fits the turn -----

  /** The state in which a call that runs alone can be at this point. */
  predicate Fits(state: State, pc: Pc) {
    match pc
    case CallFn | AddFailure | SwapToOpen | ClearFailures => state == Closed
    case RecordToHalfOpen | GaugeHalfOpen | TakeSlot | Probe => state == HalfOpen
    case SwapToReopen | AddSuccess | SwapToClosed => state == HalfOpen
    case ClearFailuresOnClose | ClearSuccessesOnClose | RecordClose | GaugeClose => state == Closed
    case LoadState | ReleaseSlot(_) | Done(_) => true
    case _ => state == Open
  }

  lemma FitsStill(cfg: Config, g: Shared, id: nat, pc: Pc, now: int, ok: bool)
    requires !pc.Done? && Fits(g.state, pc)
    ensures var o := Effect(cfg, g, id, pc, now, ok); Fits(o.shared.state, o.pc)
  {
  }

  // ----- Closes are earned -----

  /** The call has left HalfOpen and not reset `successes` yet. */
  predicate Clearing(pc: Pc) {
    pc.StampReopen? || pc.StoreReopen? || pc.ClearOnReopen? || pc.ClearFailuresOnClose? || pc.ClearSuccessesOnClose?
  }

  /** `successes` counts the n successes of the episode, and is 0 outside HalfOpen once it has
      been reset. */
  ghost predicate EpisodeCounted(cfg: Config, g: Shared, pc: Pc, n: nat) {
    && Fits(g.state, pc)
    && (g.state == HalfOpen ==> g.successes == n)
    && (g.state != HalfOpen && !Clearing(pc) ==> g.successes == 0)
    && (pc.SwapToClosed? ==> g.successes >= cfg.successThreshold)
  }

  /** What operations do to `successes`, in the state that fits them. */
  lemma SuccessesMove(cfg: Config, g: Shared, id: nat, pc: Pc, now: int, ok: bool, n: nat)
    requires !pc.Done? && EpisodeCounted(cfg, g, pc, n)
    ensures var o := Effect(cfg, g, id, pc, now, ok);
            var n' := if o.event.Some? then CountedAfter(n, o.event.value) else n;
      && (o.shared.state == HalfOpen ==> o.shared.successes == n')
      && (o.shared.state != HalfOpen && !Clearing(o.pc) ==> o.shared.successes == 0)
  {
  }

  lemma ClosesMove(cfg: Config, g: Shared, id: nat, pc: Pc, now: int, ok: bool, n: nat)
    requires !pc.Done? && EpisodeCounted(cfg, g, pc, n)
    ensures var o := Effect(cfg, g, id, pc, now, ok);
      && (o.pc.SwapToClosed? ==> o.shared.successes >= cfg.successThreshold)
      && (o.event.Some? && Closing(o.event.value) ==> n >= cfg.successThreshold)
  {
  }

  lemma EpisodeMoves(cfg: Config, g: Shared, id: nat, pc: Pc, now: int, ok: bool, n: nat)
    requires !pc.Done? && EpisodeCounted(cfg, g, pc, n)
    ensures var o := Effect(cfg, g, id, pc, now, ok);
      if o.event.Some? then
        && EpisodeCounted(cfg, o.shared, o.pc, CountedAfter(n, o.event.value))
        && (Closing(o.event.value) ==> n >= cfg.successThreshold)
      else EpisodeCounted(cfg, o.shared, o.pc, n)
  {
    FitsStill(cfg, g, id, pc, now, ok);
    SuccessesMove(cfg, g, id, pc, now, ok, n);
    ClosesMove(cfg, g, id, pc, now, ok, n);
  }

  lemma ClosesEarnedNext(cfg: Config, log: seq<Event>, e: Event)
    requires ClosesEarned(cfg, log) && (Closing(e) ==> EpisodeSuccesses(log) >= cfg.successThreshold)
    ensures ClosesEarned(cfg, log + [e])
    ensures (log + [e])[..|log|] == log
  {
    forall i | 0 <= i < |log| + 1 && Closing((log + [e])[i])
      ensures EpisodeSuccesses((log + [e])[..i]) >= cfg.successThreshold
    {
      assert (log + [e])[..i] == log[..i];
      assert log[..|log|] == log;
    }
  }

  lemma EpisodeAfter(cfg: Config, s: System, a: Action)
    requires a.Advance? && Enabled(s, a) && ClosesEarned(cfg, s.log)
    requires EpisodeCounted(cfg, s.shared, s.calls[a.id], EpisodeSuccesses(s.log))
    ensures var t := Apply(cfg, s, a);
      EpisodeCounted(cfg, t.shared, t.calls[a.id], EpisodeSuccesses(t.log)) && ClosesEarned(cfg, t.log)
  {
    EpisodeMoves(cfg, s.shared, a.id, s.calls[a.id], a.now, a.ok, EpisodeSuccesses(s.log));
    var o := Effect(cfg, s.shared, a.id, s.calls[a.id], a.now, a.ok);
    if o.event.Some? {
      ClosesEarnedNext(cfg, s.log, o.event.value);
    }
  }

  lemma {:induction false} EpisodesCounted(cfg: Config, actions: seq<Action>, s: System)
    requires Reaches(cfg, actions, s) && AtMost(cfg, actions, 1)
    ensures EpisodeCounted(cfg, s.shared, Turn(s), EpisodeSuccesses(s.log)) && ClosesEarned(cfg, s.log)
  {
    if actions != [] {
      var a, before := LastTurn(cfg, actions, s);
      EpisodesCounted(cfg, actions[..|actions| - 1], before);
      if a.Advance? {
        EpisodeAfter(cfg, before, a);
      }
    }
  }

  /** The last action of the run, the state in which it is made, and whose turn it is. */
  lemma LastTurn(cfg: Config, actions: seq<Action>, s: System) returns (a: Action, before: System)
    requires Reaches(cfg, actions, s) && AtMost(cfg, actions, 1) && actions != []
    ensures a == actions[|actions| - 1] && Enabled(before, a) && s == Apply(cfg, before, a)
    ensures Reaches(cfg, actions[..|actions| - 1], before) && AtMost(cfg, actions[..|actions| - 1], 1)
    ensures a.Begin? ==> Turn(before) == Done(Rejected) && Turn(s) == LoadState
    ensures a.Advance? ==>
              HasMoved(before, s, a.id, Effect(cfg, before.shared, a.id, before.calls[a.id], a.now, a.ok).pc)
  {
    var n := |actions| - 1;
    a, before := actions[n], Exec(cfg, actions[..n]).value;
    AtMostOfPrefix(cfg, actions, n, 1);
    AtMostNow(cfg, actions, s, 1);
    AtMostNow(cfg, actions[..n], before, 1);
    if a.Begin? {
      TurnBegins(before, a.id, s);
    } else {
      TurnMoves(before, a.id, Effect(cfg, before.shared, a.id, before.calls[a.id], a.now, a.ok));
    }
  }

  // ----- Open lasts -----

  /** All openings were made by the instant. */
  ghost predicate OpenedBy(log: seq<Event>, times: seq<int>, to: int)
    requires |times| == |log|
  {
    forall j :: 0 <= j < |log| && Opening(log[j]) ==> times[j] <= to
  }

  /** The call has opened the breaker and not read the clock yet. */
  predicate Stamping(pc: Pc) {
    pc.StampTrip? || pc.StampReopen?
  }

  /** The instant of the last opening, as far as the breaker knows it. */
  function KnownOpening(g: Shared, pc: Pc): int {
    if pc.StoreTrip? || pc.StoreReopen? then pc.at else g.openedAt
  }

  /** While Open, the instant of the last opening is known to the call that opened, or stored;
      otherwise OpenTimeout is over since every opening. */
  ghost predicate OpeningsKnown(cfg: Config, g: Shared, pc: Pc, log: seq<Event>, times: seq<int>, now: int) {
    && Fits(g.state, pc) && OpenLasts(cfg, log, times) && OpenedBy(log, times, now)
    && (g.state != Open ==> OpenedBy(log, times, now - cfg.openTimeout))
    && (g.state == Open && !Stamping(pc) ==> OpenedBy(log, times, KnownOpening(g, pc)))
    && (pc.SwapToHalfOpen? ==> now - g.openedAt >= cfg.openTimeout)
  }

  lemma OpeningsNext(cfg: Config, log: seq<Event>, times: seq<int>, e: Event, now: int)
    requires OpenLasts(cfg, log, times) && (e.Called? ==> OpenedBy(log, times, now - cfg.openTimeout))
    ensures OpenLasts(cfg, log + [e], times + [now])
  {
  }

  lemma OpenedByNext(log: seq<Event>, times: seq<int>, e: Event, now: int, to: int)
    requires |times| == |log|
    ensures OpenedBy(log + [e], times + [now], to) <==> OpenedBy(log, times, to) && (Opening(e) ==> now <= to)
  {
    if OpenedBy(log + [e], times + [now], to) {
      forall j | 0 <= j < |log| && Opening(log[j]) ensures times[j] <= to {
        assert (log + [e])[j] == log[j];
      }
      assert (log + [e])[|log|] == e;
    }
  }

  lemma OpeningsLater(cfg: Config, g: Shared, pc: Pc, log: seq<Event>, times: seq<int>, now: int, later: int)
    requires OpeningsKnown(cfg, g, pc, log, times, now) && now <= later
    ensures OpeningsKnown(cfg, g, pc, log, times, later)
  {
  }

  /** What an operation does to that knowledge. */
  ghost predicate Informs(cfg: Config, g: Shared, pc: Pc, o: Outcome, now: int) {
    && (o.event.Some? && o.event.value.Called? ==> g.state != Open)
    && (o.event.Some? && Opening(o.event.value) ==> Stamping(o.pc) && o.shared.state == Open)
    && (g.state != Open && o.shared.state == Open ==> Stamping(o.pc))
    && (g.state == Open && o.shared.state != Open ==> pc.SwapToHalfOpen?)
    && (g.state == Open && o.shared.state == Open ==>
          && !Stamping(o.pc)
          && KnownOpening(o.shared, o.pc) == if Stamping(pc) then now else KnownOpening(g, pc))
    && (o.pc.SwapToHalfOpen? ==> o.shared.openedAt == g.openedAt && now - g.openedAt >= cfg.openTimeout)
  }

  lemma EffectInforms(cfg: Config, g: Shared, id: nat, pc: Pc, now: int, ok: bool)
    requires !pc.Done? && Fits(g.state, pc)
    ensures Informs(cfg, g, pc, Effect(cfg, g, id, pc, now, ok), now)
  {
  }

  lemma OpeningsMove(cfg: Config, g: Shared, pc: Pc, o: Outcome, log: seq<Event>, times: seq<int>, now: int)
    requires Usable(cfg) && OpeningsKnown(cfg, g, pc, log, times, now)
    requires Informs(cfg, g, pc, o, now) && Fits(o.shared.state, o.pc)
    ensures if o.event.Some? then OpeningsKnown(cfg, o.shared, o.pc, log + [o.event.value], times + [now], now)
            else OpeningsKnown(cfg, o.shared, o.pc, log, times, now)
  {
    if o.event.Some? {
      OpeningsNext(cfg, log, times, o.event.value, now);
      forall to: int
        ensures OpenedBy(log + [o.event.value], times + [now], to) <==>
                OpenedBy(log, times, to) && (Opening(o.event.value) ==> now <= to)
      {
        OpenedByNext(log, times, o.event.value, now, to);
      }
    }
  }

  lemma OpeningsAfter(cfg: Config, s: System, a: Action, times: seq<int>)
    requires Usable(cfg) && a.Advance? && Enabled(s, a)
    requires OpeningsKnown(cfg, s.shared, s.calls[a.id], s.log, times, a.now)
    ensures var t := Apply(cfg, s, a);
      OpeningsKnown(cfg, t.shared, t.calls[a.id], t.log, if |t.log| > |s.log| then times + [a.now] else times, a.now)
  {
    var pc := s.calls[a.id];
    EffectInforms(cfg, s.shared, a.id, pc, a.now, a.ok);
    FitsStill(cfg, s.shared, a.id, pc, a.now, a.ok);
    OpeningsMove(cfg, s.shared, pc, Effect(cfg, s.shared, a.id, pc, a.now, a.ok), s.log, times, a.now);
  }

  lemma OpeningsStep(cfg: Config, actions: seq<Action>, s: System, a: Action, before: System, to: int)
    requires Usable(cfg) && actions != [] && a == actions[|actions| - 1] && a.Advance? && a.now <= to
    requires Reaches(cfg, actions[..|actions| - 1], before) && Reaches(cfg, actions, s)
    requires Enabled(before, a) && s == Apply(cfg, before, a)
    requires OpeningsKnown(
               cfg, before.shared, before.calls[a.id], before.log, Times(cfg, actions[..|actions| - 1]), a.now)
    ensures OpeningsKnown(cfg, s.shared, s.calls[a.id], s.log, Times(cfg, actions), to)
  {
    TimesNext(cfg, actions, before, s);
    OpeningsAfter(cfg, before, a, Times(cfg, actions[..|actions| - 1]));
    OpeningsLater(cfg, s.shared, s.calls[a.id], s.log, Times(cfg, actions), a.now, to);
  }

  lemma {:induction false} OpeningsAreKnown(cfg: Config, actions: seq<Action>, s: System, from: int, to: int)
    requires Usable(cfg) && Reaches(cfg, actions, s) && AtMost(cfg, actions, 1) && Clocked(actions, from, to)
    ensures OpeningsKnown(cfg, s.shared, Turn(s), s.log, Times(cfg, actions), to)
  {
    if actions != [] {
      var shorter := actions[..|actions| - 1];
      var a, before := LastTurn(cfg, actions, s);
      if a.Advance? {
        OpeningsAreKnown(cfg, shorter, before, from, a.now);
        OpeningsStep(cfg, actions, s, a, before, to);
        OpeningsEnd(cfg, s.shared, s.calls[a.id], s.log, Times(cfg, actions), to);
      } else {
        OpeningsAreKnown(cfg, shorter, before, from, to);
        TimesNext(cfg, actions, before, s);
      }
    }
  }

  /** How a call ended does not matter. */
  lemma OpeningsEnd(cfg: Config, g: Shared, pc: Pc, log: seq<Event>, times: seq<int>, now: int)
    requires OpeningsKnown(cfg, g, pc, log, times, now)
    ensures pc.Done? ==> OpeningsKnown(cfg, g, Done(Rejected), log, times, now)
  {
  }

  // ----- The three guarantees -----

  /** A run in which calls do not overlap keeps all three guarantees. */
  lemma SerialRunsAreSafe(cfg: Config, actions: seq<Action>, s: System, from: int, to: int)
    requires Usable(cfg) && Reaches(cfg, actions, s) && AtMost(cfg, actions, 1)
    ensures GaugeShows(s) && ClosesEarned(cfg, s.log)
    ensures Clocked(actions, from, to) ==> OpenLasts(cfg, s.log, Times(cfg, actions))
  {
    EpisodesCounted(cfg, actions, s);
    if InProgress(s) == {} {
      assert forall id :: id in s.calls && !s.calls[id].Done? ==> id in InProgress(s);
      var ids, calls := SerialRunsAreSequential(cfg, actions, s, from, to);
    }
    if Clocked(actions, from, to) {
      OpeningsAreKnown(cfg, actions, s, from, to);
    }
  }
}
