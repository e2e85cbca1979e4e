/** The scans of the hedge monitor: each looks once at every pending carrier, and the monitor
    stops of its own accord after a scan that had no carrier left to hedge. */
module FanOutScans {
  import opened Domain
  import opened FanOut
  import opened FanOutSafety
  import opened FanOutHedges

  /** The tick, the carriers with a hedge at that tick, and the carriers visited since. */
  datatype Scan = Scan(now: int, hedged: set<string>, visited: set<string>)

  /** The scan that the last tick began, if there was a tick: read off the actions, and for the
      hedges off the state at that tick. */
  ghost function LastScan(cfg: Config, actions: seq<Action>): Option<Scan> {
    if actions == [] then None
    else
      var n := |actions| - 1;
      match actions[n]
      case OfMonitor(Tick(now)) =>
        (match Exec(cfg, actions[..n])
         case None => None
         case Some(s) => Some(Scan(now, s.monitor.hedged, {})))
      case OfMonitor(Visit(c, _, _)) =>
        (match LastScan(cfg, actions[..n])
         case None => None
         case Some(scan) => Some(scan.(visited := scan.visited + {c})))
      case _ => LastScan(cfg, actions[..n])
  }

  /** What the monitor knows in the middle of a scan. */
  ghost predicate Knows(cfg: Config, m: Monitor, scan: Option<Scan>) {
    Busy(m.pc) ==>
      && scan.Some? && m.pc.now == scan.value.now
      && m.pc.todo == cfg.pending.Keys - scan.value.visited && scan.value.visited <= cfg.pending.Keys
      && scan.value.hedged <= m.hedged
      && (forall c <- m.pc.todo :: c in m.hedged ==> c in scan.value.hedged)
      && (m.pc.Scanning? && m.pc.allResolved <==> scan.value.visited <= scan.value.hedged)
  }

  lemma {:induction false} KnowsAlways(cfg: Config, actions: seq<Action>, s: State)
    requires Reaches(cfg, actions, s)
    ensures Knows(cfg, s.monitor, LastScan(cfg, actions))
  {
    if actions != [] {
      var n := |actions| - 1;
      var before := Exec(cfg, actions[..n]).value;
      KnowsAlways(cfg, actions[..n], before);
      if actions[n].OfMonitor? {
        KnowsStep(cfg, before.monitor, LastScan(cfg, actions[..n]), actions[n].o, LastScan(cfg, actions));
      } else {
        Untouched(cfg, before, actions[n]);
      }
    }
  }

  lemma KnowsStep(cfg: Config, m: Monitor, scan: Option<Scan>, o: MonitorStep, scan': Option<Scan>)
    requires Knows(cfg, m, scan) && MonitorCan(cfg, m.pc, o)
    requires match o
      case Tick(now) => scan' == Some(Scan(now, m.hedged, {}))
      case Visit(c, _, _) =>
        scan' == if scan.None? then None else Some(scan.value.(visited := scan.value.visited + {c}))
      case _ => scan' == scan
    ensures Knows(cfg, MoveMonitor(cfg, m, o).next, scan')
  {
    if o.Visit? {
      VisitExactly(cfg, m, o.carrier, o.open, o.token);
    }
  }

  /** A scan visits no carrier twice and ends only when every pending carrier was visited; after
      it the monitor stops exactly if each of them had its hedge when the scan began. A hedge
      carries the instant of the tick. */
  lemma ScansAreWhole(cfg: Config, actions: seq<Action>, s: State, o: MonitorStep)
    requires Reaches(cfg, actions, s) && MonitorEnabled(cfg, s, o) && Busy(s.monitor.pc)
    ensures LastScan(cfg, actions).Some?
    ensures var scan, next := LastScan(cfg, actions).value, MoveMonitor(cfg, s.monitor, o).next;
      match o
      case Visit(c, _, _) =>
        && c !in scan.visited
        && (|next.acquired| > |s.monitor.acquired| ==> next.acquired[|s.monitor.acquired|].now == scan.now)
      case EndScan =>
        && scan.visited == cfg.pending.Keys
        && (Stopped(next.pc) <==> cfg.pending.Keys <= scan.hedged) && (!Stopped(next.pc) ==> next.pc.Idle?)
      case _ => !Stopped(next.pc) && !next.pc.Idle?
  {
    KnowsAlways(cfg, actions, s);
    if o.Visit? {
      VisitExactly(cfg, s.monitor, o.carrier, o.open, o.token);
    }
  }
}
