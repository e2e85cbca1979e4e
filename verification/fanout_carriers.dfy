/** From the configured carriers to the quotes returned: what fanOut prepares, and what that
    means for its result. */
module FanOutCarriers {
  import opened Domain
  import opened Selection
  import opened FanOut
  import opened FanOutTheorems
  import opened FanOutHedges
  import Ema
  import EmaInterleaved
  import SwapLoop

  lemma {:induction false} HedgeableAre(
    carriers: seq<Carrier>, registered: set<string>, readings: string -> Reading, h: HedgeCarrier)
    ensures h in HedgeableOf(carriers, registered, readings) <==>
            h.id in registered && h.p95 == readings(h.id).p95
            && exists i :: 0 <= i < |carriers| && carriers[i].id == h.id && carriers[i].priority == h.priority
  {
    if carriers != [] {
      var n := |carriers| - 1;
      HedgeableAre(carriers[..n], registered, readings, h);
      if i :| 0 <= i < |carriers| && carriers[i].id == h.id && carriers[i].priority == h.priority {
        assert i < n ==> carriers[..n][i] == carriers[i];
      }
    }
  }

  /** The candidates come in the order of the carriers. */
  lemma {:induction false} HedgeableInOrder(
    carriers: seq<Carrier>, registered: set<string>, readings: string -> Reading) returns (at: seq<nat>)
    ensures InOrder(HedgeableOf(carriers, registered, readings), carriers, at,
                    (h: HedgeCarrier, c: Carrier) => h == HedgeCarrier(c.id, readings(c.id).p95, c.priority))
  {
    at := [];
    if carriers != [] {
      var n := |carriers| - 1;
      at := HedgeableInOrder(carriers[..n], registered, readings);
      if carriers[n].id in registered {
        at := at + [n];
      }
    }
  }

  /** What fanOut prepares is what the protocol relies on; and if the configured carriers have
      distinct IDs, no carrier is called by two primaries. */
  lemma PreparedIsSetUp(carriers: seq<Carrier>, open: seq<bool>, lines: seq<string>, registered: set<string>,
                        readings: string -> Reading)
    requires |open| == |carriers|
    ensures var cfg := Prepare(carriers, open, lines, registered, readings);
      && (EligibleOf(carriers, open, lines) != [] ==> SetUp(cfg))
      && cfg.registered == registered
      && (forall c :: c in cfg.pending ==>
            cfg.pending[c].start == readings(c).start && cfg.pending[c].threshold == readings(c).threshold)
      && (DistinctIds(carriers) ==> forall i, j :: 0 <= i < j < |cfg.eligible| ==> cfg.eligible[i] != cfg.eligible[j])
  {
    var cfg, eligible := Prepare(carriers, open, lines, registered, readings), EligibleOf(carriers, open, lines);
    forall h | h in cfg.hedgeable ensures h.id in cfg.eligible && h.id in cfg.registered {
      HedgeableAre(eligible, registered, readings, h);
      var i :| 0 <= i < |eligible| && eligible[i].id == h.id && eligible[i].priority == h.priority;
      assert cfg.eligible[i] == h.id;
    }
    if DistinctIds(carriers) {
      EligibleDistinct(carriers, open, lines);
    }
  }

  /** Hedges are due on what fanOut read: if the threshold of a carrier was read from its tracker
      after some interleaving of Record calls, a hedge is fired for it only if at least `warmup`
      records were committed, and the time since the start that fanOut noted, in nanoseconds, has
      reached multiplier times their moving average, in milliseconds. */
  lemma PreparedHedgesAreDue(
    carriers: seq<Carrier>, open: seq<bool>, lines: seq<string>, registered: set<string>,
    readings: string -> Reading, actions: seq<Action>, s: State, k: nat, tracker: Ema.Config, hint: int,
    records: seq<SwapLoop.Action<real>>, ts: SwapLoop.System<Ema.State, real>)
    requires |open| == |carriers|
    requires Reaches(Prepare(carriers, open, lines, registered, readings), actions, s)
    requires k < |s.monitor.acquired|
    requires SwapLoop.Reaches(EmaInterleaved.Recording(Ema.Alpha(tracker)), Ema.Initial(hint), records, ts)
    requires ts.current < |ts.heap|
    requires readings(s.monitor.acquired[k].trigger).threshold == Ema.HedgeThreshold(tracker, ts.heap[ts.current])
    ensures |ts.order| >= tracker.warmup
    ensures var f := s.monitor.acquired[k];
            var elapsed := f.now - readings(f.trigger).start;
      elapsed >= MIN_INT64 ==>
        elapsed as real >=
        Ema.Fold(Ema.Alpha(tracker), Ema.Initial(hint), ts.observed).p95 * tracker.multiplier * 1_000_000.0
  {
    var cfg, f := Prepare(carriers, open, lines, registered, readings), s.monitor.acquired[k];
    PreparedIsSetUp(carriers, open, lines, registered, readings);
    HedgesGoToTheBest(cfg, actions, s, k);
    HedgesAreDue(cfg, actions, s, k, tracker, hint, records, ts);
    Ema.SinceIsElapsed(f.now, readings(f.trigger).start);
  }

  /** The carrier is configured, its breaker was not seen Open, and it can serve a line. */
  ghost predicate Serves(carriers: seq<Carrier>, open: seq<bool>, lines: seq<string>, id: string)
    requires |open| == |carriers|
  {
    exists i, k ::
      && 0 <= i < |carriers| && 0 <= k < |carriers[i].capabilities|
      && carriers[i].id == id && !open[i] && carriers[i].capabilities[k] in lines
  }

  lemma EligibleServes(carriers: seq<Carrier>, open: seq<bool>, lines: seq<string>, id: string)
    requires |open| == |carriers| && id in Ids(EligibleOf(carriers, open, lines))
    ensures Serves(carriers, open, lines, id)
  {
    var eligible := EligibleOf(carriers, open, lines);
    var k :| 0 <= k < |eligible| && Ids(eligible)[k] == id;
    EligibleExactly(carriers, open, lines, eligible[k]);
  }

  /** Every quote returned, and every hedge fired, is of a configured carrier whose breaker was
      not seen Open when the carriers were filtered and that can serve a requested line. */
  lemma OnlyQualifiedCarriers(carriers: seq<Carrier>, open: seq<bool>, lines: seq<string>, registered: set<string>,
                              readings: string -> Reading, actions: seq<Action>, s: State)
    requires |open| == |carriers|
    requires Reaches(Prepare(carriers, open, lines, registered, readings), actions, s)
    ensures s.main.pc.Returned? ==> forall q :: q in s.main.pc.out ==> Serves(carriers, open, lines, q.carrierId)
    ensures var cfg := Prepare(carriers, open, lines, registered, readings);
      forall k :: 0 <= k < |s.monitor.acquired| ==>
        && s.monitor.acquired[k].target < |cfg.hedgeable|
        && Serves(carriers, open, lines, cfg.hedgeable[s.monitor.acquired[k].target].id)
  {
    var cfg := Prepare(carriers, open, lines, registered, readings);
    if s.main.pc.Returned? {
      ResultIsSound(cfg, actions, s);
      forall q | q in s.main.pc.out ensures Serves(carriers, open, lines, q.carrierId) {
        EligibleServes(carriers, open, lines, q.carrierId);
      }
    }
    forall k | 0 <= k < |s.monitor.acquired|
      ensures s.monitor.acquired[k].target < |cfg.hedgeable|
      ensures Serves(carriers, open, lines, cfg.hedgeable[s.monitor.acquired[k].target].id)
    {
      HedgesGoToTheBest(cfg, actions, s, k);
      EligibleServes(carriers, open, lines, cfg.hedgeable[s.monitor.acquired[k].target].id);
    }
  }
}
