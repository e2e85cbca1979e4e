/** Which way a call goes, told by what its operations found in the shared state: who may
    invoke fn, who is rejected, and what becomes of every outcome, over every interleaving. */
module BreakerPaths {
  import opened Domain
  import opened BreakerHistory
  import opened BreakerInterleaved

  // ----- What the actions tell -----

  /** The state that the first operation of the call found. */
  ghost function FirstSeen(cfg: Config, actions: seq<Action>, id: nat): Option<State> {
    if actions == [] then None
    else
      var last := actions[|actions| - 1];
      var earlier := FirstSeen(cfg, actions[..|actions| - 1], id);
      if earlier.Some? || !last.Advance? || last.id != id then earlier
      else
        match Exec(cfg, actions[..|actions| - 1])
        case None => None
        case Some(s) => Some(s.shared.state)
  }

  /** The call that found the slot free and took it, as long as it has been taken since. */
  ghost function SlotOwner(cfg: Config, actions: seq<Action>): Option<nat> {
    if actions == [] then None
    else
      match (Exec(cfg, actions[..|actions| - 1]), Exec(cfg, actions))
      case (Some(before), Some(after)) =>
        if after.shared.inFlight == 0 then None
        else if before.shared.inFlight == 0 then Some(actions[|actions| - 1].id)
        else SlotOwner(cfg, actions[..|actions| - 1])
      case _ => None
  }

  /** The calls that have ever owned the slot. */
  ghost function Owners(cfg: Config, actions: seq<Action>): set<nat> {
    if actions == [] then {}
    else
      var owner := SlotOwner(cfg, actions);
      Owners(cfg, actions[..|actions| - 1]) + if owner.Some? then {owner.value} else {}
  }

  // ----- What a pc tells -----

  /** After a first look at Closed, and before the end. */
  predicate OnClosedPath(pc: Pc) {
    pc.CallFn? || pc.AddFailure? || pc.SwapToOpen? || pc.StampTrip? || pc.StoreTrip? || pc.RecordTrip?
    || pc.GaugeTrip? || pc.ClearFailures?
  }

  /** The failure has been counted. */
  predicate PastFailure(pc: Pc) {
    pc.SwapToOpen? || pc.StampTrip? || pc.StoreTrip? || pc.RecordTrip? || pc.GaugeTrip?
  }

  /** The success of the probe has been counted. */
  predicate PastSuccess(pc: Pc) {
    pc.SwapToClosed? || pc.ClearFailuresOnClose? || pc.ClearSuccessesOnClose? || pc.RecordClose? || pc.GaugeClose?
    || pc == ReleaseSlot(true)
  }

  /** A call that ran fn and ended has had its outcome counted: on the closed path a failure
      adds to `failures` and a success clears it; a successful probe adds to `successes`. */
  ghost predicate OutcomeCounted(log: seq<Event>, id: nat, ok: bool, closed: bool, owned: bool) {
    if closed then (if ok then Cleared(id, Failures) in log else Bumped(id, Failures) in log)
    else owned && (ok ==> Bumped(id, Successes) in log)
  }

  ghost predicate PathKnown(log: seq<Event>, id: nat, pc: Pc, seen: Option<State>, owns: bool, owned: bool) {
    && (pc.LoadState? <==> seen.None?)
    && (!pc.LoadState? && !pc.Done? ==> (OnClosedPath(pc) <==> seen == Some(Closed)))
    && (Holding(pc) ==> owns && owned)
    && (PastFailure(pc) ==> Bumped(id, Failures) in log)
    && (PastSuccess(pc) ==> Bumped(id, Successes) in log)
    && (pc == Done(Rejected) ==> seen != Some(Closed))
    && (forall ok :: pc == Done(Returned(ok)) ==> OutcomeCounted(log, id, ok, seen == Some(Closed), owned))
  }

  ghost predicate CallKnown(cfg: Config, actions: seq<Action>, s: System, id: nat) {
    if id in s.calls then
      PathKnown(s.log, id, s.calls[id], FirstSeen(cfg, actions, id),
                SlotOwner(cfg, actions) == Some(id), id in Owners(cfg, actions))
    else FirstSeen(cfg, actions, id).None?
  }

  // ----- One operation -----

  /** How an operation moves a call along its path. */
  lemma PathEffect(cfg: Config, g: Shared, id: nat, pc: Pc, now: int, ok: bool)
    requires !pc.Done?
    ensures var o := Effect(cfg, g, id, pc, now, ok);
      && !o.pc.LoadState?
      && (!o.pc.Done? ==> (OnClosedPath(o.pc) <==> (if pc.LoadState? then g.state == Closed else OnClosedPath(pc))))
      && (o.pc == Done(Rejected) ==> !pc.LoadState? && !OnClosedPath(pc))
  {
  }

  /** What has been counted when a call has moved on. */
  lemma CountEffect(cfg: Config, g: Shared, id: nat, pc: Pc, now: int, ok: bool)
    requires !pc.Done?
    ensures var o := Effect(cfg, g, id, pc, now, ok);
      && (PastFailure(o.pc) ==> PastFailure(pc) || o.event == Some(Bumped(id, Failures)))
      && (PastSuccess(o.pc) ==> PastSuccess(pc) || o.event == Some(Bumped(id, Successes)))
      && (o.pc == Done(Returned(true)) ==>
            PastSuccess(pc) || (OnClosedPath(pc) && o.event == Some(Cleared(id, Failures))))
      && (o.pc == Done(Returned(false)) ==>
            Holding(pc) || (OnClosedPath(pc) && (PastFailure(pc) || o.event == Some(Bumped(id, Failures)))))
      && (PastSuccess(pc) ==> Holding(pc))
  {
  }

  lemma KnownMoves(
    cfg: Config, g: Shared, log: seq<Event>, id: nat, pc: Pc, now: int, ok: bool, seen: Option<State>, owns: bool,
    owned: bool, owns': bool, owned': bool)
    requires !pc.Done? && PathKnown(log, id, pc, seen, owns, owned)
    requires owned ==> owned'
    requires Holding(Effect(cfg, g, id, pc, now, ok).pc) ==> owns' && owned'
    ensures var o := Effect(cfg, g, id, pc, now, ok);
      PathKnown(if o.event.Some? then log + [o.event.value] else log, id, o.pc,
                if pc.LoadState? then Some(g.state) else seen, owns', owned')
  {
    PathEffect(cfg, g, id, pc, now, ok);
    CountEffect(cfg, g, id, pc, now, ok);
    var o := Effect(cfg, g, id, pc, now, ok);
    if o.event.Some? {
      assert o.event.value in log + [o.event.value] && forall e :: e in log ==> e in log + [o.event.value];
    }
  }

  // ----- Every interleaving -----

  lemma FlagWhileHeld(cfg: Config, actions: seq<Action>, s: System, id: nat)
    requires Reaches(cfg, actions, s) && Holder(s, id)
    ensures s.shared.inFlight == 1
  {
    InvariantAlways(cfg, actions, s);
  }

  lemma OwnerNext(cfg: Config, actions: seq<Action>, s: System, before: System)
    requires actions != [] && Reaches(cfg, actions, s) && Reaches(cfg, actions[..|actions| - 1], before)
    ensures SlotOwner(cfg, actions) ==
            if s.shared.inFlight == 0 then None
            else if before.shared.inFlight == 0 then Some(actions[|actions| - 1].id)
            else SlotOwner(cfg, actions[..|actions| - 1])
  {
  }

  /** A call that holds the slot owns it. */
  lemma SlotKept(cfg: Config, actions: seq<Action>, s: System, before: System, id: nat)
    requires actions != [] && Reaches(cfg, actions, s) && Reaches(cfg, actions[..|actions| - 1], before)
    requires Enabled(before, actions[|actions| - 1]) && s == Apply(cfg, before, actions[|actions| - 1])
    requires Holder(before, id) ==> SlotOwner(cfg, actions[..|actions| - 1]) == Some(id)
    ensures Holder(s, id) ==> SlotOwner(cfg, actions) == Some(id)
  {
    var last := actions[|actions| - 1];
    if Holder(s, id) {
      FlagWhileHeld(cfg, actions, s, id);
      OwnerNext(cfg, actions, s, before);
      if Holder(before, id) {
        FlagWhileHeld(cfg, actions[..|actions| - 1], before, id);
      } else if last.Advance? {
        SlotEffect(cfg, before.shared, last.id, before.calls[last.id], last.now, last.ok);
      }
    }
  }

  lemma {:induction false} KnownAlways(cfg: Config, actions: seq<Action>, s: System, id: nat)
    requires Reaches(cfg, actions, s)
    ensures CallKnown(cfg, actions, s, id)
  {
    if actions != [] {
      var n := |actions| - 1;
      var last, before := actions[n], Exec(cfg, actions[..n]).value;
      KnownAlways(cfg, actions[..n], before, id);
      SlotKept(cfg, actions, s, before, id);
      if last.id == id && last.Advance? {
        KnownMoves(
          cfg, before.shared, before.log, id, before.calls[id], last.now, last.ok, FirstSeen(cfg, actions[..n], id),
          SlotOwner(cfg, actions[..n]) == Some(id), id in Owners(cfg, actions[..n]),
          SlotOwner(cfg, actions) == Some(id), id in Owners(cfg, actions));
      }
    }
  }

  // ----- Who may invoke fn -----

  /** In every interleaving fn is invoked only by the call that owns the slot, or by one whose
      first look at the state found Closed. */
  lemma CallsAreAdmitted(cfg: Config, actions: seq<Action>, s: System, a: Action, id: nat, ok: bool)
    requires Reaches(cfg, actions, s) && Enabled(s, a) && Apply(cfg, s, a).log == s.log + [Called(id, ok)]
    ensures id == a.id
    ensures SlotOwner(cfg, actions) == Some(id) || FirstSeen(cfg, actions, id) == Some(Closed)
  {
    KnownAlways(cfg, actions, s, a.id);
    assert Apply(cfg, s, a).log[|s.log|] == Called(id, ok);
    assert a.Advance?;
    MoveEffect(cfg, s.shared, a.id, s.calls[a.id], a.now, a.ok);
    OnlyTheseCall(cfg, s.shared, a.id, s.calls[a.id], a.now, a.ok);
  }

  lemma OnlyTheseCall(cfg: Config, g: Shared, id: nat, pc: Pc, now: int, ok: bool)
    ensures var o := Effect(cfg, g, id, pc, now, ok);
      o.event.Some? && o.event.value.Called? ==> pc.CallFn? || pc.Probe?
  {
  }

  /** A call that tries the slot while it is taken ends rejected, changes nothing, and never
      invokes fn. */
  lemma TakenSlotRejects(cfg: Config, actions: seq<Action>, s: System, id: nat, now: int, ok: bool)
    requires Reaches(cfg, actions, s) && id in s.calls && s.calls[id] == TakeSlot && s.shared.inFlight != 0
    ensures Apply(cfg, s, Advance(id, now, ok)) == s.(calls := s.calls[id := Done(Rejected)])
    ensures Invocations(s.log, id) == []
  {
    InvariantAlways(cfg, actions, s);
    assert CallExplained(s, id);
  }

  /** A call is rejected exactly when it finds the timeout not over, or the slot taken. */
  lemma RejectsExactly(cfg: Config, g: Shared, id: nat, pc: Pc, now: int, ok: bool)
    requires !pc.Done?
    ensures Effect(cfg, g, id, pc, now, ok).pc == Done(Rejected) <==>
            (pc.LoadOpenedAt? && now < g.openedAt + cfg.openTimeout) || (pc.TakeSlot? && g.inFlight != 0)
  {
  }

  /** Whatever the interleaving, every call that ran fn has had its outcome counted: if it found
      Closed first, a failure was added to `failures` and a success cleared it; otherwise it has
      owned the slot, and a success was added to `successes`. */
  lemma EveryOutcomeIsCounted(cfg: Config, actions: seq<Action>, s: System, id: nat, ok: bool)
    requires Reaches(cfg, actions, s) && id in s.calls && s.calls[id] == Done(Returned(ok))
    ensures FirstSeen(cfg, actions, id) == Some(Closed) ==>
              if ok then Cleared(id, Failures) in s.log else Bumped(id, Failures) in s.log
    ensures FirstSeen(cfg, actions, id) != Some(Closed) ==>
              id in Owners(cfg, actions) && (ok ==> Bumped(id, Successes) in s.log)
  {
    KnownAlways(cfg, actions, s, id);
  }

  // ----- Operations are single accesses -----

  /** The states agree in the only field that the operation reads. */
  predicate SameRead(pc: Pc, g: Shared, h: Shared) {
    match pc
    case LoadState | SwapToHalfOpen | SwapToOpen | SwapToReopen | SwapToClosed => g.state == h.state
    case LoadOpenedAt => g.openedAt == h.openedAt
    case AddFailure => g.failures == h.failures
    case AddSuccess => g.successes == h.successes
    case TakeSlot => g.inFlight == h.inFlight
    case _ => true
  }

  /** A field is kept in both cases, or given the same value. */
  predicate SameWrite<T(==)>(before: T, after: T, before': T, after': T) {
    (after == before && after' == before') || after == after'
  }

  ghost predicate SameWrites(g: Shared, after: Shared, h: Shared, after': Shared) {
    && SameWrite(g.state, after.state, h.state, after'.state)
    && SameWrite(g.failures, after.failures, h.failures, after'.failures)
    && SameWrite(g.successes, after.successes, h.successes, after'.successes)
    && SameWrite(g.inFlight, after.inFlight, h.inFlight, after'.inFlight)
    && SameWrite(g.openedAt, after.openedAt, h.openedAt, after'.openedAt)
    && SameWrite(g.gauge, after.gauge, h.gauge, after'.gauge)
  }

  /** An operation depends on no other field than the one that it reads: in two states that
      agree there it does the same, whatever else the other calls have done to them. */
  lemma ReadsOneField(cfg: Config, g: Shared, h: Shared, id: nat, pc: Pc, now: int, ok: bool)
    requires SameRead(pc, g, h)
    ensures var o, p := Effect(cfg, g, id, pc, now, ok), Effect(cfg, h, id, pc, now, ok);
      o.pc == p.pc && o.event == p.event && SameWrites(g, o.shared, h, p.shared)
  {
  }

  /** A swap that finds another state than it expects leaves no trace: the call goes on to try
      the slot, ends with its own outcome, or gives the slot back with it. */
  lemma LostSwaps(cfg: Config, g: Shared, id: nat, pc: Pc, now: int, ok: bool)
    ensures var o := Effect(cfg, g, id, pc, now, ok);
      && (pc.SwapToHalfOpen? && g.state != Open ==> o == Outcome(g, TakeSlot, None))
      && (pc.SwapToOpen? && g.state != Closed ==> o == Outcome(g, Done(Returned(false)), None))
      && (pc.SwapToReopen? && g.state != HalfOpen ==> o == Outcome(g, ReleaseSlot(false), None))
      && (pc.SwapToClosed? && g.state != HalfOpen ==> o == Outcome(g, ReleaseSlot(true), None))
  {
  }
}
