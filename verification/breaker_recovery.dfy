/** No race can wedge the breaker: whatever overlapping calls have done to it, it recovers. */
module BreakerRecovery {
  import opened BreakerHistory
  import opened BreakerInterleaved
  import opened BreakerRuns
  import opened BreakerBridge
  import opened BreakerOverlaps

  // ----- The calls in progress can be brought to their ends -----

  /** When no call is in progress the slot is free. */
  lemma SlotFreeAtRest(cfg: Config, actions: seq<Action>, s: System)
    requires Reaches(cfg, actions, s) && InProgress(s) == {}
    ensures s.shared.inFlight == 0
  {
    InvariantAlways(cfg, actions, s);
    assert forall a :: Holder(s, a) ==> a in InProgress(s);
  }

  /** From every reachable state the calls in progress can be run to their ends, one after the
      other, with any clock and whatever fn does. */
  lemma {:induction false} CallsCanEnd(cfg: Config, actions: seq<Action>, s: System, now: int, ok: bool, m: nat)
    returns (actions': seq<Action>, s': System)
    requires Reaches(cfg, actions, s) && |InProgress(s)| <= m
    ensures Reaches(cfg, actions', s') && GoesOn(cfg, actions, actions', now, now, m)
    ensures InProgress(s') == {} && s'.calls.Keys == s.calls.Keys && s'.shared.inFlight == 0
    decreases |InProgress(s)|
  {
    if InProgress(s) == {} {
      SlotFreeAtRest(cfg, actions, s);
      return actions, s;
    }
    var id :| id in InProgress(s);
    var middle, t := SoloReaches(cfg, actions, s, id, Call(now, now, ok), m);
    ProgressUpdate(s, id, t.calls[id], t);
    actions', s' := CallsCanEnd(cfg, middle, t, now, ok, m);
    GoesOnFurther(cfg, actions, middle, actions', now, now, now, now, m);
  }

  // ----- A row of successes closes the breaker from any counters -----

  /** After n successful calls the breaker is Closed, or HalfOpen having counted at least n. */
  lemma {:induction false} SuccessesClose(cfg: Config, c: Counters, call: Call, n: nat)
    requires Usable(cfg) && call.ok && Admits(cfg, c, call) && n >= 1
    ensures var d := Repeat(cfg, c, call, n);
            d.state == Closed || (d.state == HalfOpen && n <= d.successes < cfg.successThreshold)
  {
    if n > 1 {
      SuccessesClose(cfg, c, call, n - 1);
    } else {
      assert Repeat(cfg, c, call, 0) == c;
    }
  }

  lemma AlwaysAdmitted(cfg: Config, c: Counters, call: Call, n: nat)
    requires Usable(cfg) && call.ok && Admits(cfg, c, call)
    ensures Admits(cfg, Repeat(cfg, c, call, n), call)
  {
    if n == 0 {
      assert Repeat(cfg, c, call, 0) == c;
    } else {
      SuccessesClose(cfg, c, call, n);
    }
  }

  /** A number that no call has yet. */
  lemma {:induction false} FreeFrom(ids: set<nat>) returns (first: nat)
    ensures forall id :: id in ids ==> id < first
  {
    first := 0;
    if id :| id in ids {
      var rest := FreeFrom(ids - {id});
      first := if rest <= id then id + 1 else rest;
      assert forall a :: a in ids ==> a == id || a in ids - {id};
    }
  }

  /** Exactly n more calls, which have all been let through and succeeded. */
  ghost predicate Succeeded(s: System, s': System, n: nat) {
    && |s'.calls| == |s.calls| + n && s.calls.Keys <= s'.calls.Keys
    && forall id :: id in s'.calls && id !in s.calls ==> s'.calls[id] == Done(Returned(true))
  }

  /** As many further calls as SuccessThreshold, made one after the other at the instant while
      nobody else is in progress, are all let through, and leave the breaker Closed if they
      succeed. */
  ghost predicate CanClose(cfg: Config, actions: seq<Action>, s: System, now: int)
    requires Usable(cfg)
  {
    exists actions', s' :: Reaches(cfg, actions', s') && GoesOn(cfg, actions, actions', now, now, 1)
      && Succeeded(s, s', cfg.successThreshold) && InProgress(s') == {} && s'.shared.state == Closed
  }

  lemma SucceededOneMore(s: System, t: System, s': System, id: nat, n: nat)
    requires Succeeded(s, t, n) && id !in t.calls && s'.calls == t.calls[id := Done(Returned(true))]
    ensures Succeeded(s, s', n + 1)
  {
    assert s'.calls.Keys == t.calls.Keys + {id};
  }

  /** Successful calls that are let through, one after the other, at rest. */
  lemma {:induction false} SuccessfulCalls(cfg: Config, actions: seq<Action>, s: System, first: nat, now: int, n: nat)
    returns (actions': seq<Action>, s': System)
    requires Usable(cfg) && Reaches(cfg, actions, s) && NoneFrom(s, first)
    requires InProgress(s) == {} && s.shared.inFlight == 0 && Admits(cfg, Core(s.shared), Call(now, now, true))
    ensures Reaches(cfg, actions', s') && GoesOn(cfg, actions, actions', now, now, 1)
    ensures NoneFrom(s', first + n) && InProgress(s') == {} && s'.shared.inFlight == 0
    ensures Core(s'.shared) == Repeat(cfg, Core(s.shared), Call(now, now, true), n) && Succeeded(s, s', n)
  {
    if n == 0 {
      return actions, s;
    }
    var id, call := first + n - 1, Call(now, now, true);
    var middle, t := SuccessfulCalls(cfg, actions, s, first, now, n - 1);
    AlwaysAdmitted(cfg, Core(s.shared), call, n - 1);
    actions', s' := SoloCall(cfg, middle, t, id, call, 1);
    ProgressUpdate(t, id, Done(Returned(true)), s');
    SucceededOneMore(s, t, s', id, n - 1);
    GoesOnFurther(cfg, actions, middle, actions', now, now, now, now, 1);
  }

  lemma ClosesAlone(cfg: Config, actions: seq<Action>, s: System, now: int)
    requires Usable(cfg) && Reaches(cfg, actions, s) && InProgress(s) == {}
    requires s.shared.state == Open ==> now - s.shared.openedAt >= cfg.openTimeout
    ensures CanClose(cfg, actions, s, now)
  {
    var first := FreeFrom(s.calls.Keys);
    SlotFreeAtRest(cfg, actions, s);
    SuccessesClose(cfg, Core(s.shared), Call(now, now, true), cfg.successThreshold);
    var actions', s' := SuccessfulCalls(cfg, actions, s, first, now, cfg.successThreshold);
    assert Core(s'.shared).state == Closed;
  }

  /** Recovery under every interleaving: from every reachable state the calls in progress can be
      run to their ends, and then SuccessThreshold successful calls leave the breaker Closed, at
      every instant if it is not Open, and otherwise once its `openedAt` is OpenTimeout old. */
  lemma NeverWedged(cfg: Config, actions: seq<Action>, s: System, now: int, ok: bool)
    returns (drained: seq<Action>, rest: System)
    requires Usable(cfg) && Reaches(cfg, actions, s)
    ensures Reaches(cfg, drained, rest) && GoesOn(cfg, actions, drained, now, now, |InProgress(s)|)
    ensures InProgress(rest) == {} && rest.calls.Keys == s.calls.Keys
    ensures forall later :: (rest.shared.state == Open ==> later - rest.shared.openedAt >= cfg.openTimeout) ==>
              CanClose(cfg, drained, rest, later)
  {
    drained, rest := CallsCanEnd(cfg, actions, s, now, ok, |InProgress(s)|);
    forall later | rest.shared.state == Open ==> later - rest.shared.openedAt >= cfg.openTimeout
      ensures CanClose(cfg, drained, rest, later)
    {
      ClosesAlone(cfg, drained, rest, later);
    }
  }
}
