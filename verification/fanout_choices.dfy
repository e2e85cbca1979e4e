/** What each process of the fan-out may do next, in every reachable state: nothing is excluded
    but what the code itself waits for, so the theorems cover every adapter, limiter, breaker,
    clock and schedule. */
module FanOutChoices {
  import opened FanOut
  import opened FanOutSafety
  import opened FanOutHedges
  import opened FanOutTheorems
  import FanOutScans
  import Collector

  /** Whoever has a quote to deliver finds room, and a primary's context ends only with the deadline. */
  lemma DeliveriesAreFree(cfg: Config, actions: seq<Action>, s: State)
    requires Reaches(cfg, actions, s)
    ensures |s.primaries| == |cfg.eligible|
    ensures SomeoneUnsent(s) ==> CanSend(cfg, s.channel)
    ensures !AllEnded(s.primaries) ==> (GroupDone(s) <==> s.deadline)
  {
    InvariantAlways(cfg, actions, s);
    ContextsEnd(cfg, actions, s);
    ChannelIsSafe(cfg, actions, s);
  }

  lemma TargetsInRange(cfg: Config, actions: seq<Action>, s: State)
    requires Reaches(cfg, actions, s)
    ensures forall k :: 0 <= k < |s.hedges| ==> s.hedges[k].fire.target < |cfg.hedgeable|
  {
    HedgesAreConserved(cfg, actions, s);
    forall k | 0 <= k < |s.hedges| ensures s.hedges[k].fire.target < |cfg.hedgeable| {
      HedgesGoToTheBest(cfg, actions, s, k);
    }
  }

  /** Limiter, breaker and adapter answer as they like. A quote can be delivered at any time, and
      it can be given up exactly after the deadline. */
  lemma PrimaryChoices(cfg: Config, actions: seq<Action>, s: State, i: nat, p: PrimaryStep)
    requires Reaches(cfg, actions, s) && i < |cfg.eligible|
    ensures i < |s.primaries|
    ensures Enabled(cfg, s, OfPrimary(i, p)) <==>
            match s.primaries[i]
            case Lookup => p == Find
            case AtLimiter => p == TakeToken || p == MissToken
            case AtBreaker => p == Reject || p == Admit
            case AtAdapter => p.Fail? || (p.Answer? && p.quote.carrierId == cfg.eligible[i])
            case Delivering(_) => p == Deliver || (p == Abandon && s.deadline)
            case _ => false
  {
    DeliveriesAreFree(cfg, actions, s);
  }

  /** The target answers as it likes. Its quote can be delivered at any time, and it can be given
      up exactly after the deadline or once the primaries have been waited for. */
  lemma HedgeChoices(cfg: Config, actions: seq<Action>, s: State, k: nat, h: HedgeStep)
    requires Reaches(cfg, actions, s) && k < |s.hedges|
    ensures s.hedges[k].fire.target < |cfg.hedgeable|
    ensures Enabled(cfg, s, OfHedge(k, h)) <==>
            match s.hedges[k].pc
            case Calling =>
              h == HedgeFails || (h.HedgeAnswers? && h.quote.carrierId == cfg.hedgeable[s.hedges[k].fire.target].id)
            case Sending(_) =>
              h == HedgeDelivers || (h == HedgeAbandons && (s.deadline || WaitReturned(s.waiter.pc)))
            case Finished(_) => false
  {
    ContextsEnd(cfg, actions, s);
    DeliveriesAreFree(cfg, actions, s);
    TargetsInRange(cfg, actions, s);
  }

  /** The clock, the readings of the breakers and the tokens are free, and so is the order in
      which a scan visits the carriers that it has still to visit. */
  lemma MonitorChoices(cfg: Config, actions: seq<Action>, s: State, o: MonitorStep)
    requires Reaches(cfg, actions, s)
    ensures Enabled(cfg, s, OfMonitor(o)) <==>
            match s.monitor.pc
            case Idle => o.Tick? || (o == SeeDone && (s.deadline || WaitReturned(s.waiter.pc)))
            case Scanning(_, todo, _) =>
              if o.Visit? then o.carrier in todo && |o.open| == |cfg.hedgeable| else o == EndScan && todo == {}
            case Acquired(_, _, _) => o == Announce
            case Announced(_, _, _) => o == StartHedge
            case Draining => o == Drained && forall k :: 0 <= k < |s.hedges| ==> s.hedges[k].pc.Finished?
            case Exited => o == Signal
            case Signalled => false
  {
    ContextsEnd(cfg, actions, s);
    FanOutScans.KnowsAlways(cfg, actions, s);
  }

  /** Main launches the primaries one by one, then starts the waiter and receives until the
      closed channel is empty. The waiter waits for the primaries, then for the monitor, and
      closes the channel. The deadline comes whenever it likes. */
  lemma OtherChoices(cfg: Config, actions: seq<Action>, s: State)
    requires Reaches(cfg, actions, s)
    ensures Enabled(cfg, s, OfMain(Launch)) <==> s.main.pc.Launching? && s.main.launched < |cfg.eligible|
    ensures Enabled(cfg, s, OfMain(StartWaiter)) <==> s.main.pc.Launching? && s.main.launched == |cfg.eligible|
    ensures Enabled(cfg, s, OfMain(Receive)) <==> s.main.pc.Collecting? && s.channel.buffer != []
    ensures (exists out :: Enabled(cfg, s, OfMain(Return(out)))) <==>
            s.main.pc.Collecting? && s.channel.closed && s.channel.buffer == []
    ensures Enabled(cfg, s, OfWaiter(WaitReturns)) <==>
            s.waiter.pc.AwaitingPrimaries? && forall i :: 0 <= i < |s.primaries| ==> s.primaries[i].Ended?
    ensures Enabled(cfg, s, OfWaiter(CancelHedges)) <==> s.waiter.pc.Cancelling?
    ensures Enabled(cfg, s, OfWaiter(MonitorGone)) <==> s.waiter.pc.AwaitingMonitor? && s.monitor.pc.Signalled?
    ensures Enabled(cfg, s, OfWaiter(Close)) <==> s.waiter.pc.Closing?
    ensures Enabled(cfg, s, Deadline) <==> !s.deadline
  {
    SomeReturn(cfg, s);
    assert |s.primaries| == |cfg.eligible| by {
      DeliveriesAreFree(cfg, actions, s);
    }
  }

  /** There is always some order to return. */
  lemma SomeReturn(cfg: Config, s: State)
    ensures (exists out :: Enabled(cfg, s, OfMain(Return(out)))) <==>
            s.main.pc.Collecting? && s.channel.closed && s.channel.buffer == []
  {
    if s.main.pc.Collecting? && s.channel.closed && s.channel.buffer == [] {
      Collector.SortSorts(s.main.collected);
      assert Enabled(cfg, s, OfMain(Return(Collector.Sort(s.main.collected))));
    }
  }
}
