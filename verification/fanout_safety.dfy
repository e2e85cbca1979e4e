/** What holds in every state of every fan-out. */
module FanOutSafety {
  import opened Domain
  import opened Collector
  import opened Selection
  import opened CarrierCall
  import opened Tally
  import opened FanOut
  import Ema

  /** What each kind of action leaves alone. */
  lemma Untouched(cfg: Config, s: State, a: Action)
    requires Enabled(cfg, s, a)
    ensures var t := Apply(cfg, s, a);
      && (!a.OfMain? ==> t.main == s.main) && (!a.OfMonitor? ==> t.monitor == s.monitor)
      && (!a.OfMain? && !a.OfPrimary? ==> t.primaries == s.primaries && t.statuses == s.statuses)
  {
  }

  // ----- Who has started and who has finished -----

  ghost predicate Launches(cfg: Config, main: Main, primaries: seq<Primary>, waiter: WaiterPc) {
    && |primaries| == |cfg.eligible| && main.launched <= |primaries|
    && (forall i :: 0 <= i < |primaries| ==> (primaries[i].NotLaunched? <==> main.launched <= i))
    && (main.pc.Launching? <==> waiter.NotStarted?)
    && (!main.pc.Launching? ==> main.launched == |primaries|)
  }

  /** The waiter goes on only after those it waits for, and so does the monitor. */
  ghost predicate Joined(primaries: seq<Primary>, hedges: seq<Hedge>, monitor: MonitorPc, waiter: WaiterPc) {
    && (WaitReturned(waiter) ==> AllEnded(primaries))
    && (waiter.Closing? || waiter.Gone? ==> monitor.Signalled?)
    && (monitor.Exited? || monitor.Signalled? ==> AllFinished(hedges))
  }

  ghost predicate ChannelSound(channel: Channel, main: MainPc, waiter: WaiterPc) {
    && (channel.closed <==> waiter.Gone?)
    && channel.closes == (if channel.closed then 1 else 0)
    && !channel.panicked
    && (main.Returned? ==> channel.closed && channel.buffer == [])
  }

  ghost predicate Ordering(cfg: Config, s: State) {
    && Launches(cfg, s.main, s.primaries, s.waiter.pc)
    && Joined(s.primaries, s.hedges, s.monitor.pc, s.waiter.pc)
    && ChannelSound(s.channel, s.main.pc, s.waiter.pc)
  }

  lemma OrderingStep(cfg: Config, s: State, a: Action)
    requires Ordering(cfg, s) && Enabled(cfg, s, a)
    ensures Ordering(cfg, Apply(cfg, s, a))
  {
    match a
    case OfMain(m) => OrderingMain(cfg, s, m);
    case OfPrimary(i, p) =>
      OrderingPrimary(cfg, s, i, MovePrimary(cfg, cfg.eligible[i], s.primaries[i], p));
    case OfMonitor(o) =>
    case OfHedge(k, h) =>
      OrderingHedge(cfg, s, k, MoveHedge(Target(cfg, s.hedges[k]), s.hedges[k].pc, h));
    case OfWaiter(w) =>
    case Deadline =>
  }

  lemma OrderingMain(cfg: Config, s: State, m: MainStep)
    requires Ordering(cfg, s) && MainEnabled(cfg, s, m)
    ensures Ordering(cfg, ApplyMain(cfg, s, m))
  {
  }

  lemma OrderingPrimary(cfg: Config, s: State, i: nat, m: PrimaryMove)
    requires Ordering(cfg, s) && i < |s.primaries|
    requires !s.primaries[i].NotLaunched? && !s.primaries[i].Ended? && !m.next.NotLaunched?
    ensures Ordering(cfg, CommitPrimary(s, i, m)) && !s.channel.closed
  {
    assert !AllEnded(s.primaries);
  }

  lemma OrderingHedge(cfg: Config, s: State, k: nat, m: HedgeMove)
    requires Ordering(cfg, s) && k < |s.hedges| && !s.hedges[k].pc.Finished?
    ensures Ordering(cfg, CommitHedge(s, k, m)) && !s.channel.closed
  {
    assert !AllFinished(s.hedges);
  }

  // ----- Hedges -----

  /** A hedge is fired only for an overdue primary, and goes to the best candidate among
      those whose breaker was not seen Open. */
  ghost predicate Justified(cfg: Config, f: Fire) {
    && f.trigger in cfg.pending && |f.open| == |cfg.hedgeable|
    && Ema.Overdue(f.now, cfg.pending[f.trigger].start, cfg.pending[f.trigger].threshold)
    && Select(f.trigger, cfg.hedgeable, f.open) == Some(f.target)
  }

  predicate Busy(pc: MonitorPc) {
    pc.Scanning? || pc.Acquired? || pc.Announced?
  }

  /** Each trigger acquires a token at most once, only when justified, and `hedged`
      remembers which have. */
  ghost predicate Acquisitions(cfg: Config, m: Monitor) {
    && (Busy(m.pc) ==> m.pc.todo <= cfg.pending.Keys)
    && (forall i, j :: 0 <= i < j < |m.acquired| ==> m.acquired[i].trigger != m.acquired[j].trigger)
    && (forall i :: 0 <= i < |m.acquired| ==> Justified(cfg, m.acquired[i]) && m.acquired[i].trigger in m.hedged)
    && m.hedged <= cfg.pending.Keys && |m.hedged| == |m.acquired|
  }

  /** Acquisitions, metrics and goroutines follow one another. */
  ghost predicate FiringInStep(m: Monitor, hedges: seq<Hedge>) {
    && m.acquired == m.announced + (if m.pc.Acquired? then [m.pc.fire] else [])
    && |m.announced| == |hedges| + (if m.pc.Announced? then 1 else 0)
    && (m.pc.Announced? ==> m.announced[|hedges|] == m.pc.fire)
    && (forall k :: 0 <= k < |hedges| ==> hedges[k].fire == m.announced[k])
  }

  ghost predicate Hedging(cfg: Config, s: State) {
    Acquisitions(cfg, s.monitor) && FiringInStep(s.monitor, s.hedges)
  }

  lemma HedgingStep(cfg: Config, s: State, a: Action)
    requires Hedging(cfg, s) && Enabled(cfg, s, a)
    ensures Hedging(cfg, Apply(cfg, s, a))
  {
    match a
    case OfMonitor(o) =>
      AcquisitionsMonitor(cfg, s.monitor, o);
      FiringMonitor(cfg, s.monitor, s.hedges, o);
    case OfHedge(k, h) =>
      FiringHedge(s.monitor, s.hedges, k, MoveHedge(Target(cfg, s.hedges[k]), s.hedges[k].pc, h).next);
    case OfMain(m) =>
    case OfPrimary(i, p) =>
    case OfWaiter(w) =>
    case Deadline =>
  }

  lemma FiringHedge(m: Monitor, hedges: seq<Hedge>, k: nat, next: HedgePc)
    requires FiringInStep(m, hedges) && k < |hedges|
    ensures FiringInStep(m, hedges[k := Hedge(hedges[k].fire, next)])
  {
  }

  lemma AcquisitionsMonitor(cfg: Config, m: Monitor, o: MonitorStep)
    requires Acquisitions(cfg, m) && MonitorCan(cfg, m.pc, o)
    ensures Acquisitions(cfg, MoveMonitor(cfg, m, o).next)
  {
  }

  lemma FiringMonitor(cfg: Config, m: Monitor, hedges: seq<Hedge>, o: MonitorStep)
    requires FiringInStep(m, hedges) && MonitorCan(cfg, m.pc, o)
    ensures var move := MoveMonitor(cfg, m, o);
            FiringInStep(move.next, if move.start.Some? then hedges + [Hedge(move.start.value, Calling)] else hedges)
  {
  }

  lemma {:induction false} SetFitsSeq(a: set<string>, xs: seq<string>)
    requires forall c :: c in a ==> c in xs
    ensures |a| <= |xs|
  {
    if xs == [] {
      assert a == {};
    } else {
      var n := |xs| - 1;
      SetFitsSeq(a - {xs[n]}, xs[..n]);
      SubsetSmaller(a, (a - {xs[n]}) + {xs[n]});
    }
  }

  /** At most one hedge per eligible carrier. */
  lemma HedgesBounded(cfg: Config, s: State)
    requires SetUp(cfg) && Hedging(cfg, s)
    ensures |s.hedges| <= |s.monitor.hedged| <= |cfg.pending.Keys| <= |cfg.eligible|
  {
    SubsetSmaller(s.monitor.hedged, cfg.pending.Keys);
    SetFitsSeq(cfg.pending.Keys, cfg.eligible);
  }

  // ----- The channel -----

  function SentBy(p: Primary): int {
    if p.Ended? && p.how.Sent? then 1 else 0
  }

  function SentByHedge(h: Hedge): int {
    if h.pc.Finished? && h.pc.end.Delivered? then 1 else 0
  }

  /** Everything sent is received or waiting, in order, and every process sends at most once. */
  ghost predicate Flow(s: State) {
    && s.channel.sent == s.main.received + s.channel.buffer
    && |s.channel.sent| == Total(s.primaries, SentBy) + Total(s.hedges, SentByHedge)
  }

  lemma FlowStep(cfg: Config, s: State, a: Action)
    requires Flow(s) && Ordering(cfg, s) && Enabled(cfg, s, a)
    ensures Flow(Apply(cfg, s, a))
  {
    match a
    case OfMain(m) => FlowMain(cfg, s, m);
    case OfPrimary(i, p) => FlowPrimary(cfg, s, i, p);
    case OfMonitor(o) =>
      var move := MoveMonitor(cfg, s.monitor, o);
      if move.start.Some? {
        TotalAppend(s.hedges, Hedge(move.start.value, Calling), SentByHedge);
      }
    case OfHedge(k, h) => FlowHedge(cfg, s, k, h);
    case OfWaiter(w) =>
    case Deadline =>
  }

  lemma FlowMain(cfg: Config, s: State, m: MainStep)
    requires Flow(s) && Launches(cfg, s.main, s.primaries, s.waiter.pc) && MainEnabled(cfg, s, m)
    ensures Flow(ApplyMain(cfg, s, m))
  {
    if m.Launch? {
      TotalUpdate(s.primaries, s.main.launched, Lookup, SentBy);
    }
  }

  lemma FlowPrimary(cfg: Config, s: State, i: nat, p: PrimaryStep)
    requires Flow(s) && Ordering(cfg, s) && PrimaryEnabled(cfg, s, i, p)
    ensures Flow(CommitPrimary(s, i, MovePrimary(cfg, cfg.eligible[i], s.primaries[i], p)))
  {
    var m := MovePrimary(cfg, cfg.eligible[i], s.primaries[i], p);
    OrderingPrimary(cfg, s, i, m);
    TotalUpdate(s.primaries, i, m.next, SentBy);
  }

  lemma FlowHedge(cfg: Config, s: State, k: nat, h: HedgeStep)
    requires Flow(s) && Ordering(cfg, s) && HedgeEnabled(cfg, s, k, h)
    ensures Flow(CommitHedge(s, k, MoveHedge(Target(cfg, s.hedges[k]), s.hedges[k].pc, h)))
  {
    var m := MoveHedge(Target(cfg, s.hedges[k]), s.hedges[k].pc, h);
    OrderingHedge(cfg, s, k, m);
    TotalUpdate(s.hedges, k, Hedge(s.hedges[k].fire, m.next), SentByHedge);
  }

  /** A process that has not sent its quote yet. */
  ghost predicate SomeoneUnsent(s: State) {
    || (exists i :: 0 <= i < |s.primaries| && s.primaries[i].Delivering?)
    || (exists k :: 0 <= k < |s.hedges| && s.hedges[k].pc.Sending?)
  }

  /** Sends never exceed one per primary and one per hedge, so whoever is about to send
      finds room. */
  lemma SentBounds(cfg: Config, s: State)
    requires SetUp(cfg) && Ordering(cfg, s) && Hedging(cfg, s) && Flow(s)
    ensures |s.channel.buffer| <= |s.channel.sent| <= Capacity(cfg)
    ensures SomeoneUnsent(s) ==> |s.channel.buffer| < Capacity(cfg)
  {
    HedgesBounded(cfg, s);
    TotalBounds(s.primaries, SentBy, 1);
    TotalBounds(s.hedges, SentByHedge, 1);
    if i :| 0 <= i < |s.primaries| && s.primaries[i].Delivering? {
      TotalBelow(s.primaries, SentBy, i);
    }
    if k :| 0 <= k < |s.hedges| && s.hedges[k].pc.Sending? {
      TotalBelow(s.hedges, SentByHedge, k);
    }
  }

  // ----- What is sent and kept -----

  /** The quote is the target's, marked as a hedge's. */
  ghost predicate OfTarget(cfg: Config, h: Hedge, q: Quote) {
    && h.fire.target < |cfg.hedgeable| && q.carrierId == cfg.hedgeable[h.fire.target].id && q.isHedged
    && q.carrierId in cfg.eligible
  }

  /** Every quote comes from an eligible carrier, a primary's quote from its own, and a hedge's
      from its target. */
  ghost predicate Contents(cfg: Config, primaries: seq<Primary>, hedges: seq<Hedge>, sent: seq<Quote>) {
    && |primaries| == |cfg.eligible|
    && (forall i :: 0 <= i < |primaries| && primaries[i].Delivering? ==>
          primaries[i].quote.carrierId == cfg.eligible[i])
    && (forall i :: 0 <= i < |primaries| && primaries[i].Ended? && primaries[i].how.Sent? ==>
          primaries[i].how.quote.carrierId == cfg.eligible[i] && primaries[i].how.quote in sent)
    && (forall k :: 0 <= k < |hedges| && hedges[k].pc.Sending? ==> OfTarget(cfg, hedges[k], hedges[k].pc.quote))
    && (forall j :: 0 <= j < |sent| ==> sent[j].carrierId in cfg.eligible)
  }

  lemma ContentsStep(cfg: Config, s: State, a: Action)
    requires SetUp(cfg) && Ordering(cfg, s) && Enabled(cfg, s, a)
    requires Contents(cfg, s.primaries, s.hedges, s.channel.sent)
    ensures var t := Apply(cfg, s, a); Contents(cfg, t.primaries, t.hedges, t.channel.sent)
  {
    match a
    case OfMain(m) => ContentsMain(cfg, s, m);
    case OfPrimary(i, p) =>
      OrderingPrimary(cfg, s, i, MovePrimary(cfg, cfg.eligible[i], s.primaries[i], p));
      ContentsPrimary(cfg, s.primaries, s.hedges, s.channel.sent, i, p);
    case OfMonitor(o) => ContentsMonitor(cfg, s, MoveMonitor(cfg, s.monitor, o));
    case OfHedge(k, h) => ContentsHedge(cfg, s, k, h);
    case OfWaiter(w) => OnlyWaits(s, w);
    case Deadline =>
  }

  lemma ContentsMain(cfg: Config, s: State, m: MainStep)
    requires Contents(cfg, s.primaries, s.hedges, s.channel.sent) && MainEnabled(cfg, s, m)
    ensures var t := ApplyMain(cfg, s, m); Contents(cfg, t.primaries, t.hedges, t.channel.sent)
  {
  }

  lemma ContentsMonitor(cfg: Config, s: State, m: MonitorMove)
    requires Contents(cfg, s.primaries, s.hedges, s.channel.sent)
    ensures var t := CommitMonitor(s, m); Contents(cfg, t.primaries, t.hedges, t.channel.sent)
  {
  }

  lemma ContentsHedge(cfg: Config, s: State, k: nat, h: HedgeStep)
    requires SetUp(cfg) && Ordering(cfg, s) && HedgeEnabled(cfg, s, k, h)
    requires Contents(cfg, s.primaries, s.hedges, s.channel.sent)
    ensures var t := CommitHedge(s, k, MoveHedge(Target(cfg, s.hedges[k]), s.hedges[k].pc, h));
            Contents(cfg, t.primaries, t.hedges, t.channel.sent)
  {
    OrderingHedge(cfg, s, k, MoveHedge(Target(cfg, s.hedges[k]), s.hedges[k].pc, h));
    assert cfg.hedgeable[s.hedges[k].fire.target] in cfg.hedgeable;
  }

  /** The waiter touches no primary and no hedge, and sends and records nothing. */
  lemma OnlyWaits(s: State, w: WaiterStep)
    requires WaiterEnabled(s, w)
    ensures var t := ApplyWaiter(s, w);
      t.primaries == s.primaries && t.hedges == s.hedges && t.channel.sent == s.channel.sent && t.statuses == s.statuses
  {
  }

  lemma ContentsPrimary(
    cfg: Config, primaries: seq<Primary>, hedges: seq<Hedge>, sent: seq<Quote>, i: nat, p: PrimaryStep)
    requires Contents(cfg, primaries, hedges, sent) && i < |primaries|
    requires PrimaryCan(cfg.eligible[i], primaries[i], p)
    ensures var m := MovePrimary(cfg, cfg.eligible[i], primaries[i], p);
            Contents(cfg, primaries[i := m.next], hedges, if m.send.Some? then sent + [m.send.value] else sent)
  {
    var m := MovePrimary(cfg, cfg.eligible[i], primaries[i], p);
    if m.send.Some? {
      assert (sent + [m.send.value])[|sent|] == m.send.value;
      assert forall q :: q in sent ==> q in sent + [m.send.value];
    }
  }

  /** The collector keeps exactly the first arrivals of what it has received. */
  ghost predicate Collected(m: Main) {
    && m.collected == FirstArrivals(m.received)
    && |m.collected| + m.discarded == |m.received|
    && (forall c :: c in m.seen <==> Arrived(m.received, c))
    && (m.pc.Returned? ==> IsSortOf(m.pc.out, m.collected))
  }

  lemma CollectedStep(cfg: Config, s: State, a: Action)
    requires Collected(s.main) && Enabled(cfg, s, a)
    ensures Collected(Apply(cfg, s, a).main)
  {
    if a.OfMain? {
      CollectedMain(cfg, s, a.m);
    } else {
      Untouched(cfg, s, a);
    }
  }

  lemma CollectedMain(cfg: Config, s: State, m: MainStep)
    requires Collected(s.main) && MainEnabled(cfg, s, m)
    ensures Collected(ApplyMain(cfg, s, m).main)
  {
    if m.Receive? {
      CollectedReceive(s.main, s.channel.buffer[0]);
    }
  }

  lemma CollectedReceive(m: Main, q: Quote)
    requires Collected(m) && m.pc.Collecting?
    ensures Collected(ReceiveQuote(m, q))
  {
    assert (m.received + [q])[..|m.received|] == m.received;
    ArrivedNext(m.received, q);
  }

  // ----- Cancellation -----

  /** No goroutine of the group has returned an error. */
  ghost predicate Harmless(primaries: seq<Primary>) {
    forall i :: 0 <= i < |primaries| && primaries[i].Ended? ==> primaries[i].returned.None?
  }

  /** callCarrier returns nil on every path, whatever became of the call. */
  lemma ReturnsNil(cfg: Config, carrier: string, at: Primary, p: PrimaryStep)
    requires PrimaryCan(carrier, at, p)
    ensures var next := MovePrimary(cfg, carrier, at, p).next; next.Ended? ==> next.returned.None?
  {
  }

  lemma HarmlessStep(cfg: Config, s: State, a: Action)
    requires Harmless(s.primaries) && Enabled(cfg, s, a)
    ensures Harmless(Apply(cfg, s, a).primaries)
  {
    if a.OfPrimary? {
      ReturnsNil(cfg, cfg.eligible[a.i], s.primaries[a.i], a.p);
    }
  }

  /** A primary's quote is dropped only after the request's own deadline. */
  ghost predicate DropsExplained(primaries: seq<Primary>, waiter: Waiter, deadline: bool) {
    && (forall i :: 0 <= i < |primaries| && primaries[i].Ended? && primaries[i].how.Dropped? ==> deadline)
    && (WaitReturned(waiter.pc) && !waiter.deadlineFirst ==>
          forall i :: 0 <= i < |primaries| && primaries[i].Ended? ==> !primaries[i].how.Dropped?)
  }

  lemma DropsStep(cfg: Config, s: State, a: Action)
    requires DropsExplained(s.primaries, s.waiter, s.deadline) && Ordering(cfg, s) && Harmless(s.primaries)
    requires Enabled(cfg, s, a)
    ensures var t := Apply(cfg, s, a); DropsExplained(t.primaries, t.waiter, t.deadline)
  {
    match a
    case OfPrimary(i, p) => DropsPrimary(cfg, s, i, p);
    case _ =>
  }

  lemma DropsPrimary(cfg: Config, s: State, i: nat, p: PrimaryStep)
    requires DropsExplained(s.primaries, s.waiter, s.deadline) && Ordering(cfg, s) && Harmless(s.primaries)
    requires PrimaryEnabled(cfg, s, i, p)
    ensures var next := MovePrimary(cfg, cfg.eligible[i], s.primaries[i], p).next;
            DropsExplained(s.primaries[i := next], s.waiter, s.deadline)
  {
    assert !AllEnded(s.primaries);
  }

  // ----- Quote statuses -----

  /** The statuses recorded by primary i, in order. */
  function StatusesOf(statuses: seq<(nat, Status)>, i: nat): seq<Status> {
    if statuses == [] then []
    else
      var last := statuses[|statuses| - 1];
      StatusesOf(statuses[..|statuses| - 1], i) + if last.0 == i then [last.1] else []
  }

  /** The status that a primary has recorded by now. */
  function StatusAt(p: Primary): Option<Status> {
    match p
    case Delivering(_) => Some(Success)
    case Ended(Limited, _) => Some(RateLimited)
    case Ended(Unsuccessful(status), _) => Some(status)
    case Ended(Sent(_), _) => Some(Success)
    case Ended(Dropped(_), _) => Some(Success)
    case _ => None
  }

  function Reported(p: Primary): int {
    if StatusAt(p).Some? then 1 else 0
  }

  /** Whether a primary's pc is possible, given whether its carrier has an adapter. */
  predicate Plausible(cfg: Config, carrier: string, p: Primary) {
    match p
    case NotLaunched | Lookup => true
    case Ended(NoAdapter, _) => carrier !in cfg.registered
    case Ended(Unsuccessful(status), _) => carrier in cfg.registered && status != Success
    case _ => carrier in cfg.registered
  }

  ghost predicate StatusesExplained(cfg: Config, primaries: seq<Primary>, statuses: seq<(nat, Status)>) {
    && |primaries| == |cfg.eligible|
    && (forall i: nat :: i < |primaries| ==> StatusesOf(statuses, i) == AsSeq(StatusAt(primaries[i])))
    && |statuses| == Total(primaries, Reported)
    && (forall i :: 0 <= i < |primaries| ==> Plausible(cfg, cfg.eligible[i], primaries[i]))
  }

  lemma StatusesStep(cfg: Config, s: State, a: Action)
    requires StatusesExplained(cfg, s.primaries, s.statuses) && Ordering(cfg, s) && Enabled(cfg, s, a)
    ensures var t := Apply(cfg, s, a); StatusesExplained(cfg, t.primaries, t.statuses)
  {
    match a
    case OfMain(m) => StatusesMain(cfg, s, m);
    case OfPrimary(i, p) => StatusesPrimary(cfg, s, i, p);
    case _ => Untouched(cfg, s, a);
  }

  lemma StatusesMain(cfg: Config, s: State, m: MainStep)
    requires StatusesExplained(cfg, s.primaries, s.statuses) && Ordering(cfg, s) && MainEnabled(cfg, s, m)
    ensures var t := ApplyMain(cfg, s, m); StatusesExplained(cfg, t.primaries, t.statuses)
  {
    if m.Launch? {
      StatusesLaunch(cfg, s.primaries, s.statuses, s.main.launched);
    }
  }

  lemma StatusesPrimary(cfg: Config, s: State, i: nat, p: PrimaryStep)
    requires StatusesExplained(cfg, s.primaries, s.statuses) && PrimaryEnabled(cfg, s, i, p)
    ensures var t := CommitPrimary(s, i, MovePrimary(cfg, cfg.eligible[i], s.primaries[i], p));
            StatusesExplained(cfg, t.primaries, t.statuses)
  {
    StatusMove(cfg, cfg.eligible[i], s.primaries[i], p);
    StatusesCommit(cfg, s.primaries, s.statuses, i, MovePrimary(cfg, cfg.eligible[i], s.primaries[i], p));
  }

  lemma StatusesLaunch(cfg: Config, primaries: seq<Primary>, statuses: seq<(nat, Status)>, i: nat)
    requires StatusesExplained(cfg, primaries, statuses) && i < |primaries| && primaries[i].NotLaunched?
    ensures StatusesExplained(cfg, primaries[i := Lookup], statuses)
  {
    StatusesCommit(cfg, primaries, statuses, i, PrimaryMove(Lookup, None, None));
  }

  /** A primary records a status exactly when it comes to have one. */
  ghost predicate StatusSound(cfg: Config, carrier: string, at: Primary, m: PrimaryMove) {
    && (if m.status.Some? then StatusAt(at).None? && StatusAt(m.next) == m.status
        else StatusAt(m.next) == StatusAt(at))
    && Plausible(cfg, carrier, m.next)
  }

  lemma StatusMove(cfg: Config, carrier: string, at: Primary, p: PrimaryStep)
    requires PrimaryCan(carrier, at, p) && Plausible(cfg, carrier, at)
    ensures StatusSound(cfg, carrier, at, MovePrimary(cfg, carrier, at, p))
  {
  }

  lemma StatusesCommit(cfg: Config, primaries: seq<Primary>, statuses: seq<(nat, Status)>, i: nat, m: PrimaryMove)
    requires StatusesExplained(cfg, primaries, statuses) && i < |primaries|
    requires StatusSound(cfg, cfg.eligible[i], primaries[i], m)
    ensures StatusesExplained(cfg, primaries[i := m.next],
                              if m.status.Some? then statuses + [(i, m.status.value)] else statuses)
  {
    TotalUpdate(primaries, i, m.next, Reported);
    var statuses' := if m.status.Some? then statuses + [(i, m.status.value)] else statuses;
    forall j: nat | j < |primaries|
      ensures StatusesOf(statuses', j) == AsSeq(StatusAt(primaries[i := m.next][j]))
    {
      assert StatusesOf(statuses, j) == AsSeq(StatusAt(primaries[j]));
      if m.status.Some? {
        StatusesGrow(statuses, i, m.status.value, j);
      }
    }
  }

  lemma StatusesGrow(statuses: seq<(nat, Status)>, i: nat, status: Status, j: nat)
    ensures StatusesOf(statuses + [(i, status)], j) ==
            if i == j then StatusesOf(statuses, j) + [status] else StatusesOf(statuses, j)
  {
    assert (statuses + [(i, status)])[..|statuses|] == statuses;
  }

  // ----- Every reachable state -----

  ghost predicate Invariant(cfg: Config, s: State) {
    && Ordering(cfg, s) && Hedging(cfg, s) && Flow(s)
    && Contents(cfg, s.primaries, s.hedges, s.channel.sent)
    && Collected(s.main) && Harmless(s.primaries)
    && DropsExplained(s.primaries, s.waiter, s.deadline)
    && StatusesExplained(cfg, s.primaries, s.statuses)
  }

  lemma InvariantInit(cfg: Config)
    ensures Invariant(cfg, Init(cfg))
  {
    var s := Init(cfg);
    NobodyHasStarted(cfg, s.primaries);
    NothingIsCollected(s.main);
  }

  lemma NothingIsCollected(m: Main)
    requires m == Main(Launching, 0, [], {}, 0, [])
    ensures Collected(m)
  {
    assert FirstArrivals([]) == [];
  }

  lemma NobodyHasStarted(cfg: Config, primaries: seq<Primary>)
    requires primaries == seq(|cfg.eligible|, _ => NotLaunched)
    ensures Total(primaries, SentBy) == 0 && Total([], SentByHedge) == 0
    ensures Launches(cfg, Init(cfg).main, primaries, NotStarted) && Contents(cfg, primaries, [], [])
    ensures StatusesExplained(cfg, primaries, [])
    ensures Harmless(primaries) && DropsExplained(primaries, Waiter(NotStarted, false), false)
  {
    TotalConstant(primaries, SentBy, 0);
    TotalConstant(primaries, Reported, 0);
  }

  lemma InvariantStep(cfg: Config, s: State, a: Action)
    requires SetUp(cfg) && Invariant(cfg, s) && Enabled(cfg, s, a)
    ensures Invariant(cfg, Apply(cfg, s, a))
  {
    OrderingStep(cfg, s, a);
    HedgingStep(cfg, s, a);
    FlowStep(cfg, s, a);
    ContentsStep(cfg, s, a);
    CollectedStep(cfg, s, a);
    HarmlessStep(cfg, s, a);
    DropsStep(cfg, s, a);
    StatusesStep(cfg, s, a);
  }

  /** The state before the last action. */
  lemma BeforeLast(cfg: Config, actions: seq<Action>, s: State) returns (before: State)
    requires Reaches(cfg, actions, s) && actions != []
    ensures Reaches(cfg, actions[..|actions| - 1], before)
    ensures Enabled(cfg, before, actions[|actions| - 1]) && s == Apply(cfg, before, actions[|actions| - 1])
  {
    before := Exec(cfg, actions[..|actions| - 1]).value;
  }

  lemma {:induction false} InvariantAlways(cfg: Config, actions: seq<Action>, s: State)
    requires Reaches(cfg, actions, s)
    ensures Invariant(cfg, s)
  {
    if actions == [] {
      InvariantInit(cfg);
    } else {
      var n := |actions| - 1;
      var before := Exec(cfg, actions[..n]).value;
      InvariantAlways(cfg, actions[..n], before);
      InvariantStep(cfg, before, actions[n]);
    }
  }
}
