/** The fan-out protocol as a transition system: primaries, the hedge monitor, hedges, the
    waiter that closes the channel, and the collector, interleaved arbitrarily. */
module FanOut {
  import opened Domain
  import opened Collector
  import opened Selection
  import opened CarrierCall
  import Ema

  /** What the monitor knows of a primary: when it was set up, and the latency in
      milliseconds from which it deserves a hedge. */
  datatype Pending = Pending(start: int, threshold: real)

  datatype Config = Config(
    eligible: seq<string>,
    registered: set<string>,
    pending: map<string, Pending>,
    hedgeable: seq<HedgeCarrier>)

  /** What the rest relies on: one pending entry per eligible carrier ID, and hedge candidates
      among the eligible carriers that have an adapter. */
  ghost predicate SetUp(cfg: Config) {
    && cfg.eligible != []
    && (forall c :: c in cfg.pending <==> c in cfg.eligible)
    && (forall h :: h in cfg.hedgeable ==> h.id in cfg.eligible && h.id in cfg.registered)
  }

  /** What fanOut reads of a carrier's tracker and clock while it sets up. */
  datatype Reading = Reading(p95: real, start: int, threshold: real)

  function Ids(carriers: seq<Carrier>): (ids: seq<string>)
    ensures |ids| == |carriers| && forall i :: 0 <= i < |ids| ==> ids[i] == carriers[i].id
  {
    seq(|carriers|, i requires 0 <= i < |carriers| => carriers[i].id)
  }

  /** The hedge candidates: the carriers that have an adapter. */
  function HedgeableOf(
    carriers: seq<Carrier>, registered: set<string>, readings: string -> Reading): seq<HedgeCarrier> {
    if carriers == [] then []
    else
      var n := |carriers| - 1;
      var c := carriers[n];
      HedgeableOf(carriers[..n], registered, readings)
      + if c.id in registered then [HedgeCarrier(c.id, readings(c.id).p95, c.priority)] else []
  }

  /** What fanOut sets up for the carriers that it finds eligible. */
  function Prepare(carriers: seq<Carrier>, open: seq<bool>, lines: seq<string>, registered: set<string>,
                   readings: string -> Reading): Config
    requires |open| == |carriers|
  {
    var eligible := EligibleOf(carriers, open, lines);
    Config(Ids(eligible), registered,
           map c | c in Ids(eligible) :: Pending(readings(c).start, readings(c).threshold),
           HedgeableOf(eligible, registered, readings))
  }

  function Capacity(cfg: Config): nat {
    2 * |cfg.eligible|
  }

  // ----- Processes -----

  datatype End = NoAdapter | Limited | Unsuccessful(status: Status) | Sent(quote: Quote) | Dropped(quote: Quote)

  datatype Primary =
    | NotLaunched | Lookup | AtLimiter | AtBreaker | AtAdapter | Delivering(quote: Quote)
    | Ended(how: End, returned: Option<Error>)

  /** A fired hedge: for which carrier, to which candidate, at what time, and what the
      breakers showed when the candidate was selected. */
  datatype Fire = Fire(trigger: string, target: nat, now: int, open: seq<bool>)

  datatype HedgeEnd = CallFailed | Delivered(quote: Quote) | Abandoned(quote: Quote)

  datatype HedgePc = Calling | Sending(quote: Quote) | Finished(end: HedgeEnd)

  datatype Hedge = Hedge(fire: Fire, pc: HedgePc)

  datatype MonitorPc =
    | Idle
    | Scanning(now: int, todo: set<string>, allResolved: bool)
    | Acquired(now: int, todo: set<string>, fire: Fire)
    | Announced(now: int, todo: set<string>, fire: Fire)
    | Draining | Exited | Signalled

  /** The hedge monitor: `hedged` is its alreadyHedged map; the token acquisitions and the
      hedge metrics recorded so far are history. */
  datatype Monitor = Monitor(pc: MonitorPc, hedged: set<string>, acquired: seq<Fire>, announced: seq<Fire>)

  datatype WaiterPc = NotStarted | AwaitingPrimaries | Cancelling | AwaitingMonitor | Closing | Gone

  /** `deadlineFirst` remembers whether the deadline had passed when the group's Wait returned. */
  datatype Waiter = Waiter(pc: WaiterPc, deadlineFirst: bool)

  datatype MainPc = Launching | Collecting | Returned(out: seq<Quote>)

  /** The goroutine of fanOut itself, with its collector; `received` is history. */
  datatype Main = Main(
    pc: MainPc, launched: nat, collected: seq<Quote>, seen: set<string>, discarded: nat, received: seq<Quote>)

  /** The results channel; everything ever sent and the number of closes are history. */
  datatype Channel = Channel(buffer: seq<Quote>, closed: bool, panicked: bool, sent: seq<Quote>, closes: nat)

  datatype State = State(
    main: Main, primaries: seq<Primary>, statuses: seq<(nat, Status)>,
    monitor: Monitor, hedges: seq<Hedge>, waiter: Waiter, channel: Channel, deadline: bool)

  function Init(cfg: Config): State {
    State(
      Main(Launching, 0, [], {}, 0, []), seq(|cfg.eligible|, _ => NotLaunched), [],
      Monitor(Idle, {}, [], []), [], Waiter(NotStarted, false), Channel([], false, false, [], 0), false)
  }

  /** The group's Wait has returned, which ends the group's context. */
  predicate WaitReturned(w: WaiterPc) {
    w.Cancelling? || w.AwaitingMonitor? || w.Closing? || w.Gone?
  }

  /** A goroutine of the group has returned an error. */
  predicate SomeoneFailed(primaries: seq<Primary>) {
    exists i :: 0 <= i < |primaries| && primaries[i].Ended? && primaries[i].returned.Some?
  }

  /** The context given to the primaries: the request's, which the group ends as soon as one
      of its goroutines returns an error, and at the latest when its Wait returns. */
  predicate GroupDone(s: State) {
    s.deadline || SomeoneFailed(s.primaries) || WaitReturned(s.waiter.pc)
  }

  /** The context given to the monitor and its hedges: the group's, also ended by hedgeCancel. */
  predicate HedgeDone(s: State) {
    GroupDone(s) || s.waiter.pc.AwaitingMonitor? || s.waiter.pc.Closing? || s.waiter.pc.Gone?
  }

  predicate AllEnded(primaries: seq<Primary>) {
    forall i :: 0 <= i < |primaries| ==> primaries[i].Ended?
  }

  predicate AllFinished(hedges: seq<Hedge>) {
    forall k :: 0 <= k < |hedges| ==> hedges[k].pc.Finished?
  }

  // ----- The channel -----

  /** A send is possible when there is room; on a closed channel it panics. */
  predicate CanSend(cfg: Config, ch: Channel) {
    ch.closed || |ch.buffer| < Capacity(cfg)
  }

  function Send(ch: Channel, q: Option<Quote>): Channel {
    match q
    case None => ch
    case Some(quote) =>
      if ch.closed then ch.(panicked := true)
      else ch.(buffer := ch.buffer + [quote], sent := ch.sent + [quote])
  }

  function CloseChannel(ch: Channel): Channel {
    ch.(closed := true, closes := ch.closes + 1, panicked := ch.panicked || ch.closed)
  }

  // ----- Primaries: callCarrier -----

  datatype PrimaryStep =
    | Find | TakeToken | MissToken | Reject | Admit | Fail(error: Error) | Answer(quote: Quote) | Deliver | Abandon

  /** The next pc, the status recorded and the quote sent by one step of a primary. */
  datatype PrimaryMove = PrimaryMove(next: Primary, status: Option<Status>, send: Option<Quote>)

  predicate PrimaryCan(carrier: string, at: Primary, p: PrimaryStep) {
    match p
    case Find => at.Lookup?
    case TakeToken => at.AtLimiter?
    case MissToken => at.AtLimiter?
    case Reject => at.AtBreaker?
    case Admit => at.AtBreaker?
    case Fail(_) => at.AtAdapter?
    case Answer(q) => at.AtAdapter? && q.carrierId == carrier
    case Deliver => at.Delivering?
    case Abandon => at.Delivering?
  }

  function MovePrimary(cfg: Config, carrier: string, at: Primary, p: PrimaryStep): PrimaryMove
    requires PrimaryCan(carrier, at, p)
  {
    match p
    case Find => PrimaryMove(if carrier in cfg.registered then AtLimiter else Ended(NoAdapter, None), None, None)
    case TakeToken => PrimaryMove(AtBreaker, None, None)
    case MissToken => PrimaryMove(Ended(Limited, None), Some(RateLimited), None)
    case Reject => PrimaryMove(Ended(Unsuccessful(CircuitWasOpen), None), Some(CircuitWasOpen), None)
    case Admit => PrimaryMove(AtAdapter, None, None)
    case Fail(e) => PrimaryMove(Ended(Unsuccessful(Classify(e)), None), Some(Classify(e)), None)
    case Answer(q) => PrimaryMove(Delivering(q), Some(Success), None)
    case Deliver => PrimaryMove(Ended(Sent(at.quote), None), None, Some(at.quote))
    case Abandon => PrimaryMove(Ended(Dropped(at.quote), None), None, None)
  }

  predicate PrimaryEnabled(cfg: Config, s: State, i: nat, p: PrimaryStep) {
    && i < |s.primaries| && i < |cfg.eligible|
    && PrimaryCan(cfg.eligible[i], s.primaries[i], p)
    && (p.Deliver? ==> CanSend(cfg, s.channel))
    && (p.Abandon? ==> GroupDone(s))
  }

  function CommitPrimary(s: State, i: nat, m: PrimaryMove): State
    requires i < |s.primaries|
  {
    s.(primaries := s.primaries[i := m.next],
       statuses := if m.status.Some? then s.statuses + [(i, m.status.value)] else s.statuses,
       channel := Send(s.channel, m.send))
  }

  // ----- Hedges -----

  datatype HedgeStep = HedgeFails | HedgeAnswers(quote: Quote) | HedgeDelivers | HedgeAbandons

  datatype HedgeMove = HedgeMove(next: HedgePc, send: Option<Quote>)

  /** The carrier a hedge was sent to. */
  function Target(cfg: Config, h: Hedge): string
    requires h.fire.target < |cfg.hedgeable|
  {
    cfg.hedgeable[h.fire.target].id
  }

  predicate HedgeCan(carrier: string, at: HedgePc, h: HedgeStep) {
    match h
    case HedgeFails => at.Calling?
    case HedgeAnswers(q) => at.Calling? && q.carrierId == carrier
    case HedgeDelivers => at.Sending?
    case HedgeAbandons => at.Sending?
  }

  function MoveHedge(carrier: string, at: HedgePc, h: HedgeStep): HedgeMove
    requires HedgeCan(carrier, at, h)
  {
    match h
    case HedgeFails => HedgeMove(Finished(CallFailed), None)
    case HedgeAnswers(q) => HedgeMove(Sending(q.(isHedged := true)), None)
    case HedgeDelivers => HedgeMove(Finished(Delivered(at.quote)), Some(at.quote))
    case HedgeAbandons => HedgeMove(Finished(Abandoned(at.quote)), None)
  }

  predicate HedgeEnabled(cfg: Config, s: State, k: nat, h: HedgeStep) {
    && k < |s.hedges| && s.hedges[k].fire.target < |cfg.hedgeable|
    && HedgeCan(Target(cfg, s.hedges[k]), s.hedges[k].pc, h)
    && (h.HedgeDelivers? ==> CanSend(cfg, s.channel))
    && (h.HedgeAbandons? ==> HedgeDone(s))
  }

  function CommitHedge(s: State, k: nat, m: HedgeMove): State
    requires k < |s.hedges|
  {
    s.(hedges := s.hedges[k := Hedge(s.hedges[k].fire, m.next)], channel := Send(s.channel, m.send))
  }

  // ----- The monitor: hedgeMonitor -----

  datatype MonitorStep =
    | Tick(now: int) | SeeDone | Visit(carrier: string, open: seq<bool>, token: bool) | EndScan
    | Announce | StartHedge | Drained | Signal

  datatype MonitorMove = MonitorMove(next: Monitor, start: Option<Fire>)

  predicate MonitorCan(cfg: Config, at: MonitorPc, o: MonitorStep) {
    match o
    case Tick(_) => at.Idle?
    case SeeDone => at.Idle?
    case Visit(c, open, _) => at.Scanning? && c in at.todo && c in cfg.pending && |open| == |cfg.hedgeable|
    case EndScan => at.Scanning? && at.todo == {}
    case Announce => at.Acquired?
    case StartHedge => at.Announced?
    case Drained => at.Draining?
    case Signal => at.Exited?
  }

  /** Looking at one pending carrier: skip it, or find it due and acquire a token for the
      best candidate. */
  function VisitCarrier(cfg: Config, m: Monitor, c: string, open: seq<bool>, token: bool): Monitor
    requires MonitorCan(cfg, m.pc, Visit(c, open, token))
  {
    var rest := m.pc.todo - {c};
    if c in m.hedged then m.(pc := Scanning(m.pc.now, rest, m.pc.allResolved))
    else if !Ema.Overdue(m.pc.now, cfg.pending[c].start, cfg.pending[c].threshold) then
      m.(pc := Scanning(m.pc.now, rest, false))
    else
      var candidate := Select(c, cfg.hedgeable, open);
      if candidate.None? || !token then m.(pc := Scanning(m.pc.now, rest, false))
      else
        var fire := Fire(c, candidate.value, m.pc.now, open);
        Monitor(Acquired(m.pc.now, rest, fire), m.hedged + {c}, m.acquired + [fire], m.announced)
  }

  function MoveMonitor(cfg: Config, m: Monitor, o: MonitorStep): MonitorMove
    requires MonitorCan(cfg, m.pc, o)
  {
    match o
    case Tick(now) => MonitorMove(m.(pc := Scanning(now, cfg.pending.Keys, true)), None)
    case SeeDone => MonitorMove(m.(pc := Draining), None)
    case Visit(c, open, token) => MonitorMove(VisitCarrier(cfg, m, c, open, token), None)
    case EndScan => MonitorMove(m.(pc := if m.pc.allResolved then Draining else Idle), None)
    case Announce =>
      MonitorMove(m.(pc := Announced(m.pc.now, m.pc.todo, m.pc.fire), announced := m.announced + [m.pc.fire]), None)
    case StartHedge => MonitorMove(m.(pc := Scanning(m.pc.now, m.pc.todo, false)), Some(m.pc.fire))
    case Drained => MonitorMove(m.(pc := Exited), None)
    case Signal => MonitorMove(m.(pc := Signalled), None)
  }

  predicate MonitorEnabled(cfg: Config, s: State, o: MonitorStep) {
    && MonitorCan(cfg, s.monitor.pc, o)
    && (o.SeeDone? ==> HedgeDone(s))
    && (o.Drained? ==> AllFinished(s.hedges))
  }

  function CommitMonitor(s: State, m: MonitorMove): State {
    s.(monitor := m.next,
       hedges := if m.start.Some? then s.hedges + [Hedge(m.start.value, Calling)] else s.hedges)
  }

  // ----- Main: launch the primaries, start the waiter, range over the channel, sort, return -----

  datatype MainStep = Launch | StartWaiter | Receive | Return(out: seq<Quote>)

  predicate MainEnabled(cfg: Config, s: State, m: MainStep) {
    match m
    case Launch => s.main.pc.Launching? && s.main.launched < |cfg.eligible| && s.main.launched < |s.primaries|
    case StartWaiter => s.main.pc.Launching? && s.main.launched == |cfg.eligible|
    case Receive => s.main.pc.Collecting? && s.channel.buffer != []
    case Return(out) =>
      s.main.pc.Collecting? && s.channel.closed && s.channel.buffer == []
      && multiset(out) == multiset(s.main.collected)
      && forall i, j :: 0 <= i < j < |out| ==> !Before(out[j], out[i])
  }

  function ReceiveQuote(m: Main, q: Quote): Main {
    var t := m.(received := m.received + [q]);
    if q.carrierId in m.seen then t.(discarded := m.discarded + 1)
    else t.(seen := m.seen + {q.carrierId}, collected := m.collected + [q])
  }

  function ApplyMain(cfg: Config, s: State, m: MainStep): State
    requires MainEnabled(cfg, s, m)
  {
    match m
    case Launch =>
      s.(main := s.main.(launched := s.main.launched + 1), primaries := s.primaries[s.main.launched := Lookup])
    case StartWaiter => s.(main := s.main.(pc := Collecting), waiter := s.waiter.(pc := AwaitingPrimaries))
    case Receive =>
      s.(main := ReceiveQuote(s.main, s.channel.buffer[0]), channel := s.channel.(buffer := s.channel.buffer[1..]))
    case Return(out) => s.(main := s.main.(pc := Returned(out)))
  }

  // ----- The waiter: wait for the primaries, cancel the monitor, wait for it, close the channel -----

  datatype WaiterStep = WaitReturns | CancelHedges | MonitorGone | Close

  predicate WaiterEnabled(s: State, w: WaiterStep) {
    match w
    case WaitReturns => s.waiter.pc.AwaitingPrimaries? && AllEnded(s.primaries)
    case CancelHedges => s.waiter.pc.Cancelling?
    case MonitorGone => s.waiter.pc.AwaitingMonitor? && s.monitor.pc.Signalled?
    case Close => s.waiter.pc.Closing?
  }

  function ApplyWaiter(s: State, w: WaiterStep): State
    requires WaiterEnabled(s, w)
  {
    match w
    case WaitReturns => s.(waiter := Waiter(Cancelling, s.deadline))
    case CancelHedges => s.(waiter := s.waiter.(pc := AwaitingMonitor))
    case MonitorGone => s.(waiter := s.waiter.(pc := Closing))
    case Close => s.(waiter := s.waiter.(pc := Gone), channel := CloseChannel(s.channel))
  }

  // ----- The system -----

  datatype Action =
    | OfMain(m: MainStep)
    | OfPrimary(i: nat, p: PrimaryStep)
    | OfMonitor(o: MonitorStep)
    | OfHedge(k: nat, h: HedgeStep)
    | OfWaiter(w: WaiterStep)
    | Deadline

  predicate IsTick(a: Action) {
    a.OfMonitor? && a.o.Tick?
  }

  predicate Enabled(cfg: Config, s: State, a: Action) {
    match a
    case OfMain(m) => MainEnabled(cfg, s, m)
    case OfPrimary(i, p) => PrimaryEnabled(cfg, s, i, p)
    case OfMonitor(o) => MonitorEnabled(cfg, s, o)
    case OfHedge(k, h) => HedgeEnabled(cfg, s, k, h)
    case OfWaiter(w) => WaiterEnabled(s, w)
    case Deadline => !s.deadline
  }

  function Apply(cfg: Config, s: State, a: Action): State
    requires Enabled(cfg, s, a)
  {
    match a
    case OfMain(m) => ApplyMain(cfg, s, m)
    case OfPrimary(i, p) =>
      CommitPrimary(s, i, MovePrimary(cfg, cfg.eligible[i], s.primaries[i], p))
    case OfMonitor(o) => CommitMonitor(s, MoveMonitor(cfg, s.monitor, o))
    case OfHedge(k, h) => CommitHedge(s, k, MoveHedge(Target(cfg, s.hedges[k]), s.hedges[k].pc, h))
    case OfWaiter(w) => ApplyWaiter(s, w)
    case Deadline => s.(deadline := true)
  }

  /** The state after the actions, in order, if each is enabled in its turn. */
  function Exec(cfg: Config, actions: seq<Action>): Option<State> {
    if actions == [] then Some(Init(cfg))
    else
      var last := actions[|actions| - 1];
      match Exec(cfg, actions[..|actions| - 1])
      case None => None
      case Some(s) => if Enabled(cfg, s, last) then Some(Apply(cfg, s, last)) else None
  }

  ghost predicate Reaches(cfg: Config, actions: seq<Action>, s: State) {
    SetUp(cfg) && Exec(cfg, actions) == Some(s)
  }
}
