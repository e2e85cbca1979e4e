/** The guarantees of one fan-out, over every interleaving. */
module FanOutTheorems {
  import opened Domain
  import opened Collector
  import opened CarrierCall
  import opened Tally
  import opened FanOut
  import opened FanOutSafety

  // ----- The channel -----

  /** No send hits a closed channel, the channel is closed at most once and never holds more
      than twice as many items as there are carriers, so a send never waits. */
  lemma ChannelIsSafe(cfg: Config, actions: seq<Action>, s: State)
    requires Reaches(cfg, actions, s)
    ensures !s.channel.panicked && s.channel.closes <= 1
    ensures |s.channel.buffer| <= 2 * |cfg.eligible|
    ensures SomeoneUnsent(s) ==> !s.channel.closed && |s.channel.buffer| < 2 * |cfg.eligible|
  {
    InvariantAlways(cfg, actions, s);
    SentBounds(cfg, s);
    if SomeoneUnsent(s) {
      assert !AllEnded(s.primaries) || !AllFinished(s.hedges);
    }
  }

  /** When fanOut returns, every goroutine it started has finished, and everything that was
      sent has been received. */
  lemma NobodyLeftBehind(cfg: Config, actions: seq<Action>, s: State)
    requires Reaches(cfg, actions, s) && s.main.pc.Returned?
    ensures AllEnded(s.primaries) && AllFinished(s.hedges)
    ensures s.monitor.pc.Signalled? && s.waiter.pc.Gone?
    ensures s.channel.closes == 1 && s.main.received == s.channel.sent
  {
    InvariantAlways(cfg, actions, s);
    assert s.main.received + [] == s.main.received;
  }

  // ----- Isolation and completeness -----

  /** No carrier's failure, rejection or rate limiting reaches the group as an error, although
      an error would end the context of all; so while a primary is at work its context has
      ended exactly if the request's own deadline has passed. */
  lemma FailuresAreIsolated(cfg: Config, actions: seq<Action>, s: State)
    requires Reaches(cfg, actions, s)
    ensures !SomeoneFailed(s.primaries)
    ensures !AllEnded(s.primaries) ==> (GroupDone(s) <==> s.deadline)
  {
    InvariantAlways(cfg, actions, s);
  }

  /** If the request's deadline does not come before the primaries have finished, every
      primary whose adapter call succeeded has its carrier in the result. */
  lemma SuccessesAreReturned(cfg: Config, actions: seq<Action>, s: State, i: nat)
    requires Reaches(cfg, actions, s) && s.main.pc.Returned? && !s.waiter.deadlineFirst
    requires i < |cfg.eligible| && Success in StatusesOf(s.statuses, i)
    ensures Arrived(s.main.pc.out, cfg.eligible[i])
  {
    InvariantAlways(cfg, actions, s);
    NobodyLeftBehind(cfg, actions, s);
    SuccessMeansSent(cfg, s, i);
    var q := s.primaries[i].how.quote;
    var j :| 0 <= j < |s.channel.sent| && s.channel.sent[j] == q;
    assert Arrived(s.main.received, q.carrierId);
    KeepsExactlyFirstArrivals(s.main.received);
    SortKeepsCarriers(s.main.collected, s.main.pc.out, q.carrierId);
  }

  lemma SuccessMeansSent(cfg: Config, s: State, i: nat)
    requires StatusesExplained(cfg, s.primaries, s.statuses) && DropsExplained(s.primaries, s.waiter, s.deadline)
    requires WaitReturned(s.waiter.pc) && !s.waiter.deadlineFirst && AllEnded(s.primaries)
    requires i < |s.primaries| && Success in StatusesOf(s.statuses, i)
    ensures s.primaries[i].how.Sent?
  {
    assert StatusesOf(s.statuses, i) == AsSeq(StatusAt(s.primaries[i]));
    assert Plausible(cfg, cfg.eligible[i], s.primaries[i]);
    assert StatusAt(s.primaries[i]) == Some(Success);
  }

  lemma SortKeepsCarriers(quotes: seq<Quote>, out: seq<Quote>, c: string)
    requires multiset(out) == multiset(quotes) && Arrived(quotes, c)
    ensures Arrived(out, c)
  {
    var i :| 0 <= i < |quotes| && quotes[i].carrierId == c;
    assert quotes[i] in multiset(out);
    var j :| 0 <= j < |out| && out[j] == quotes[i];
  }

  // ----- The result -----

  /** The returned slice has one quote per carrier, is strictly ordered by premium and then
      carrier, and keeps exactly the first quote that each carrier sent; its carriers are
      eligible. */
  lemma ResultIsSound(cfg: Config, actions: seq<Action>, s: State)
    requires Reaches(cfg, actions, s) && s.main.pc.Returned?
    ensures forall q :: q in s.main.pc.out <==> IsFirstArrival(s.channel.sent, q)
    ensures forall i, j :: 0 <= i < j < |s.main.pc.out| ==>
              var a, b := s.main.pc.out[i], s.main.pc.out[j];
              a.premium.amount < b.premium.amount
              || (a.premium.amount == b.premium.amount && LexicallyBefore(a.carrierId, b.carrierId))
    ensures DistinctCarriers(s.main.pc.out)
    ensures forall q :: q in s.main.pc.out ==> q.carrierId in cfg.eligible
  {
    InvariantAlways(cfg, actions, s);
    NobodyLeftBehind(cfg, actions, s);
    var out, kept := s.main.pc.out, s.main.collected;
    KeepsExactlyFirstArrivals(s.main.received);
    forall q ensures q in out <==> IsFirstArrival(s.channel.sent, q) {
      assert q in out <==> q in multiset(out);
      assert q in kept <==> q in multiset(kept);
    }
    OutIsDistinct(kept, out);
    forall i, j | 0 <= i < j < |out|
      ensures out[i].premium.amount < out[j].premium.amount
              || (out[i].premium.amount == out[j].premium.amount
                  && LexicallyBefore(out[i].carrierId, out[j].carrierId))
    {
      OrderTotal(out[i], out[j]);
      StringBeforeExactly(out[i].carrierId, out[j].carrierId);
    }
    forall q | q in out ensures q.carrierId in cfg.eligible {
      assert IsFirstArrival(s.channel.sent, q);
    }
  }

  lemma OutIsDistinct(kept: seq<Quote>, out: seq<Quote>)
    requires DistinctCarriers(kept) && multiset(out) == multiset(kept)
    ensures DistinctCarriers(out)
  {
    DistinctIsOnePerCarrier(kept);
    forall i, j | 0 <= i < j < |out| ensures out[i].carrierId != out[j].carrierId {
      assert out[i] in multiset(out) && out[j] in multiset(out);
      if out[i].carrierId == out[j].carrierId {
        Twice(out, i, j);
        Once(kept, out[i]);
      }
    }
  }

  lemma Twice(out: seq<Quote>, i: nat, j: nat)
    requires i < j < |out| && out[i] == out[j]
    ensures multiset(out)[out[i]] >= 2
  {
    assert out == out[..j] + [out[j]] + out[j + 1..];
    assert out[i] in out[..j];
  }

  lemma {:induction false} Once(kept: seq<Quote>, q: Quote)
    requires DistinctCarriers(kept)
    ensures multiset(kept)[q] <= 1
  {
    if kept != [] {
      var n := |kept| - 1;
      assert kept == kept[..n] + [kept[n]];
      Once(kept[..n], q);
      if q == kept[n] {
        assert q !in kept[..n];
      }
    }
  }

  /** Two fan-outs in which the same quotes were the first of their carriers return the same
      slice, whatever the interleavings and whatever the sorting algorithms. */
  lemma ResultIsDetermined(cfg: Config, actions: seq<Action>, s: State, actions': seq<Action>, s': State)
    requires Reaches(cfg, actions, s) && s.main.pc.Returned?
    requires Reaches(cfg, actions', s') && s'.main.pc.Returned?
    requires multiset(FirstArrivals(s.channel.sent)) == multiset(FirstArrivals(s'.channel.sent))
    ensures s.main.pc.out == s'.main.pc.out
  {
    InvariantAlways(cfg, actions, s);
    InvariantAlways(cfg, actions', s');
    NobodyLeftBehind(cfg, actions, s);
    NobodyLeftBehind(cfg, actions', s');
    SliceIsDetermined(s.channel.sent, s'.channel.sent, s.main.pc.out, s'.main.pc.out);
  }

  /** Conservation: every quote that a primary or a hedge has sent is either in the result or
      was discarded as a duplicate. */
  lemma SendsAreAccountedFor(cfg: Config, actions: seq<Action>, s: State)
    requires Reaches(cfg, actions, s) && s.main.pc.Returned?
    ensures |s.main.pc.out| + s.main.discarded == Total(s.primaries, SentBy) + Total(s.hedges, SentByHedge)
  {
    InvariantAlways(cfg, actions, s);
    NobodyLeftBehind(cfg, actions, s);
    SameLength(s.main.pc.out, s.main.collected);
  }

  // ----- Statuses -----

  function Registered(cfg: Config): nat {
    |RegisteredIn(cfg, |cfg.eligible|)|
  }

  /** The positions below n whose carrier has an adapter. */
  function RegisteredIn(cfg: Config, n: nat): set<nat>
    requires n <= |cfg.eligible|
  {
    set i: nat | i < n && cfg.eligible[i] in cfg.registered
  }

  /** The primary's adapter call returned a quote. */
  predicate Quoted(p: Primary) {
    p.Ended? && (p.how.Sent? || p.how.Dropped?)
  }

  /** Each call with a registered adapter records exactly one quote status, one without
      records none; the status is success exactly if the adapter gave a quote, and the metrics
      of the fan-out add up. */
  lemma OneStatusEach(cfg: Config, actions: seq<Action>, s: State)
    requires Reaches(cfg, actions, s) && s.main.pc.Returned?
    ensures |s.primaries| == |cfg.eligible|
    ensures forall i: nat :: i < |cfg.eligible| ==> (Success in StatusesOf(s.statuses, i) <==> Quoted(s.primaries[i]))
    ensures forall i: nat :: i < |cfg.eligible| ==>
              |StatusesOf(s.statuses, i)| == (if cfg.eligible[i] in cfg.registered then 1 else 0)
    ensures |s.statuses| == Registered(cfg)
  {
    InvariantAlways(cfg, actions, s);
    EachReports(cfg, s.primaries, s.statuses);
  }

  lemma EachReports(cfg: Config, primaries: seq<Primary>, statuses: seq<(nat, Status)>)
    requires StatusesExplained(cfg, primaries, statuses) && AllEnded(primaries)
    ensures forall i: nat :: i < |primaries| ==> (Success in StatusesOf(statuses, i) <==> Quoted(primaries[i]))
    ensures forall i: nat :: i < |primaries| ==>
              |StatusesOf(statuses, i)| == (if cfg.eligible[i] in cfg.registered then 1 else 0)
    ensures |statuses| == Registered(cfg)
  {
    forall i: nat | i < |primaries|
      ensures Success in StatusesOf(statuses, i) <==> Quoted(primaries[i])
      ensures |StatusesOf(statuses, i)| == (if cfg.eligible[i] in cfg.registered then 1 else 0)
      ensures Reported(primaries[i]) == (if cfg.eligible[i] in cfg.registered then 1 else 0)
    {
      OneStatus(cfg, primaries, statuses, i);
    }
    CountRegistered(cfg, primaries, |primaries|);
    assert primaries[..|primaries|] == primaries;
  }

  lemma OneStatus(cfg: Config, primaries: seq<Primary>, statuses: seq<(nat, Status)>, i: nat)
    requires StatusesExplained(cfg, primaries, statuses) && i < |primaries| && primaries[i].Ended?
    ensures Success in StatusesOf(statuses, i) <==> Quoted(primaries[i])
    ensures |StatusesOf(statuses, i)| == Reported(primaries[i])
    ensures Reported(primaries[i]) == (if cfg.eligible[i] in cfg.registered then 1 else 0)
  {
    assert StatusesOf(statuses, i) == AsSeq(StatusAt(primaries[i]));
    assert Plausible(cfg, cfg.eligible[i], primaries[i]);
  }

  lemma {:induction false} CountRegistered(cfg: Config, primaries: seq<Primary>, n: nat)
    requires |primaries| == |cfg.eligible| && n <= |primaries|
    requires forall i :: 0 <= i < |primaries| ==>
               Reported(primaries[i]) == (if cfg.eligible[i] in cfg.registered then 1 else 0)
    ensures Total(primaries[..n], Reported) == |RegisteredIn(cfg, n)|
  {
    if n > 0 {
      CountRegistered(cfg, primaries, n - 1);
      assert primaries[..n][..n - 1] == primaries[..n - 1];
      assert RegisteredIn(cfg, n) ==
             RegisteredIn(cfg, n - 1) + if cfg.eligible[n - 1] in cfg.registered then {n - 1} else {};
    } else {
      assert RegisteredIn(cfg, 0) == {};
    }
  }
}
