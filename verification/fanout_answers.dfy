/** What becomes of the adapters' answers in a fan-out: every quote in the result is one, and
    none is lost before its context ends. */
module FanOutAnswers {
  import opened Domain
  import opened Collector
  import opened FanOut
  import opened FanOutSafety
  import opened FanOutTheorems
  import opened FanOutHedges

  // ----- Which answers the processes carry -----

  function QuoteOfPrimary(p: Primary): Option<Quote> {
    match p
    case Delivering(q) => Some(q)
    case Ended(Sent(q), _) => Some(q)
    case Ended(Dropped(q), _) => Some(q)
    case _ => None
  }

  function QuoteOfHedge(h: HedgePc): Option<Quote> {
    match h
    case Sending(q) => Some(q)
    case Finished(Delivered(q)) => Some(q)
    case Finished(Abandoned(q)) => Some(q)
    case _ => None
  }

  function PrimaryQuote(s: State, i: nat): Option<Quote> {
    if i < |s.primaries| then QuoteOfPrimary(s.primaries[i]) else None
  }

  function HedgeQuote(s: State, k: nat): Option<Quote> {
    if k < |s.hedges| then QuoteOfHedge(s.hedges[k].pc) else None
  }

  /** The adapter of hedge k answered, and its answer was marked as a hedge's. */
  ghost predicate HedgeAnswered(actions: seq<Action>, k: nat, q: Quote) {
    exists answer :: OfHedge(k, HedgeAnswers(answer)) in actions && q == answer.(isHedged := true)
  }

  /** The processes carry exactly what their adapters answered. */
  ghost predicate Carried(actions: seq<Action>, s: State) {
    && (forall i: nat, q :: PrimaryQuote(s, i) == Some(q) <==> OfPrimary(i, PrimaryStep.Answer(q)) in actions)
    && (forall k: nat, q :: HedgeQuote(s, k) == Some(q) <==> HedgeAnswered(actions, k, q))
  }

  lemma PrimaryCarries(cfg: Config, carrier: string, at: Primary, p: PrimaryStep)
    requires PrimaryCan(carrier, at, p)
    ensures var next := MovePrimary(cfg, carrier, at, p).next;
            QuoteOfPrimary(next) == if p.Answer? then Some(p.quote) else QuoteOfPrimary(at)
    ensures p.Answer? ==> QuoteOfPrimary(at).None?
  {
  }

  lemma HedgeCarries(carrier: string, at: HedgePc, h: HedgeStep)
    requires HedgeCan(carrier, at, h)
    ensures var next := MoveHedge(carrier, at, h).next;
            QuoteOfHedge(next) == if h.HedgeAnswers? then Some(h.quote.(isHedged := true)) else QuoteOfHedge(at)
    ensures h.HedgeAnswers? ==> QuoteOfHedge(at).None?
  {
  }

  /** The action adds to what the processes carry the answer that it brings, if any. */
  ghost predicate CarriesMore(s: State, a: Action, t: State) {
    && (forall i: nat :: PrimaryQuote(t, i) ==
          if a.OfPrimary? && a.i == i && a.p.Answer? then Some(a.p.quote) else PrimaryQuote(s, i))
    && (forall k: nat :: HedgeQuote(t, k) ==
          if a.OfHedge? && a.k == k && a.h.HedgeAnswers? then Some(a.h.quote.(isHedged := true))
          else HedgeQuote(s, k))
  }

  lemma CarriedMore(cfg: Config, s: State, a: Action)
    requires Enabled(cfg, s, a) && Launches(cfg, s.main, s.primaries, s.waiter.pc)
    ensures CarriesMore(s, a, Apply(cfg, s, a))
  {
    match a
    case OfPrimary(i, p) => PrimaryCarries(cfg, cfg.eligible[i], s.primaries[i], p);
    case OfHedge(k, h) => HedgeCarries(Target(cfg, s.hedges[k]), s.hedges[k].pc, h);
    case _ =>
  }

  lemma AnswersOnce(cfg: Config, s: State, a: Action)
    requires Enabled(cfg, s, a)
    ensures a.OfPrimary? && a.p.Answer? ==> PrimaryQuote(s, a.i).None?
    ensures a.OfHedge? && a.h.HedgeAnswers? ==> HedgeQuote(s, a.k).None?
  {
  }

  lemma {:induction false} CarriedAlways(cfg: Config, actions: seq<Action>, s: State)
    requires Reaches(cfg, actions, s)
    ensures Carried(actions, s)
  {
    if actions != [] {
      var n := |actions| - 1;
      var before := BeforeLast(cfg, actions, s);
      CarriedAlways(cfg, actions[..n], before);
      LaunchesAlways(cfg, actions[..n], before);
      CarriedMore(cfg, before, actions[n]);
      AnswersOnce(cfg, before, actions[n]);
      CarriedNext(actions[..n], actions[n], before, s);
      assert actions[..n] + [actions[n]] == actions;
    }
  }

  lemma CarriedNext(actions: seq<Action>, a: Action, s: State, t: State)
    requires Carried(actions, s) && CarriesMore(s, a, t)
    requires a.OfPrimary? && a.p.Answer? ==> PrimaryQuote(s, a.i).None?
    requires a.OfHedge? && a.h.HedgeAnswers? ==> HedgeQuote(s, a.k).None?
    ensures Carried(actions + [a], t)
  {
    forall k: nat, q ensures HedgeQuote(t, k) == Some(q) <==> HedgeAnswered(actions + [a], k, q) {
      HedgeAnsweredNext(actions, a, k, q);
      assert HedgeQuote(s, k) == Some(q) <==> HedgeAnswered(actions, k, q);
    }
    forall i: nat, q ensures PrimaryQuote(t, i) == Some(q) <==> OfPrimary(i, PrimaryStep.Answer(q)) in actions + [a] {
      assert PrimaryQuote(s, i) == Some(q) <==> OfPrimary(i, PrimaryStep.Answer(q)) in actions;
    }
  }

  lemma HedgeAnsweredNext(actions: seq<Action>, a: Action, k: nat, q: Quote)
    ensures HedgeAnswered(actions + [a], k, q) <==>
            HedgeAnswered(actions, k, q)
            || (a.OfHedge? && a.k == k && a.h.HedgeAnswers? && q == a.h.quote.(isHedged := true))
  {
    if HedgeAnswered(actions, k, q) {
      var answer :| OfHedge(k, HedgeAnswers(answer)) in actions && q == answer.(isHedged := true);
      assert OfHedge(k, HedgeAnswers(answer)) in actions + [a];
    }
    if a.OfHedge? && a.k == k && a.h.HedgeAnswers? {
      assert OfHedge(k, HedgeAnswers(a.h.quote)) in actions + [a];
    }
  }

  // ----- What has been sent -----

  ghost predicate SentByPrimary(s: State, q: Quote) {
    exists i :: 0 <= i < |s.primaries| && s.primaries[i].Ended? && s.primaries[i].how == Sent(q)
  }

  ghost predicate SentByAHedge(s: State, q: Quote) {
    exists k :: 0 <= k < |s.hedges| && s.hedges[k].pc == Finished(Delivered(q))
  }

  /** What has been sent is exactly what the processes that have delivered carried. */
  ghost predicate SentSound(s: State) {
    forall q :: q in s.channel.sent <==> SentByPrimary(s, q) || SentByAHedge(s, q)
  }

  lemma PrimarySends(cfg: Config, s: State, i: nat, p: PrimaryStep)
    requires SentSound(s) && Ordering(cfg, s) && PrimaryEnabled(cfg, s, i, p)
    ensures SentSound(CommitPrimary(s, i, MovePrimary(cfg, cfg.eligible[i], s.primaries[i], p)))
  {
    var m := MovePrimary(cfg, cfg.eligible[i], s.primaries[i], p);
    var t := CommitPrimary(s, i, m);
    OrderingPrimary(cfg, s, i, m);
    forall q ensures q in t.channel.sent <==> SentByPrimary(t, q) || SentByAHedge(t, q) {
      assert q in s.channel.sent <==> SentByPrimary(s, q) || SentByAHedge(s, q);
      if j :| 0 <= j < |s.primaries| && s.primaries[j].Ended? && s.primaries[j].how == Sent(q) {
        assert t.primaries[j] == s.primaries[j];
      }
      if p.Deliver? {
        assert t.primaries[i] == Ended(Sent(s.primaries[i].quote), None);
      }
      if j :| 0 <= j < |t.primaries| && t.primaries[j].Ended? && t.primaries[j].how == Sent(q) {
        assert j == i || s.primaries[j] == t.primaries[j];
      }
    }
  }

  lemma HedgeSends(cfg: Config, s: State, k: nat, h: HedgeStep)
    requires SentSound(s) && Ordering(cfg, s) && HedgeEnabled(cfg, s, k, h)
    ensures SentSound(CommitHedge(s, k, MoveHedge(Target(cfg, s.hedges[k]), s.hedges[k].pc, h)))
  {
    var m := MoveHedge(Target(cfg, s.hedges[k]), s.hedges[k].pc, h);
    var t := CommitHedge(s, k, m);
    OrderingHedge(cfg, s, k, m);
    forall q ensures q in t.channel.sent <==> SentByPrimary(t, q) || SentByAHedge(t, q) {
      assert q in s.channel.sent <==> SentByPrimary(s, q) || SentByAHedge(s, q);
      if j :| 0 <= j < |s.hedges| && s.hedges[j].pc == Finished(Delivered(q)) {
        assert t.hedges[j].pc == s.hedges[j].pc;
      }
      if h.HedgeDelivers? {
        assert t.hedges[k].pc == Finished(Delivered(s.hedges[k].pc.quote));
      }
      if j :| 0 <= j < |t.hedges| && t.hedges[j].pc == Finished(Delivered(q)) {
        assert j == k || s.hedges[j] == t.hedges[j];
      }
    }
  }

  lemma OthersSendNothing(cfg: Config, s: State, a: Action)
    requires SentSound(s) && Launches(cfg, s.main, s.primaries, s.waiter.pc) && Enabled(cfg, s, a)
    requires !a.OfPrimary? && !a.OfHedge?
    ensures SentSound(Apply(cfg, s, a))
  {
    var t := Apply(cfg, s, a);
    assert t.channel.sent == s.channel.sent && |t.primaries| == |s.primaries| && |s.hedges| <= |t.hedges|;
    forall q ensures q in t.channel.sent <==> SentByPrimary(t, q) || SentByAHedge(t, q) {
      assert q in s.channel.sent <==> SentByPrimary(s, q) || SentByAHedge(s, q);
      if j :| 0 <= j < |s.hedges| && s.hedges[j].pc == Finished(Delivered(q)) {
        assert t.hedges[j] == s.hedges[j];
      }
      if j :| 0 <= j < |s.primaries| && s.primaries[j].Ended? && s.primaries[j].how == Sent(q) {
        assert t.primaries[j] == s.primaries[j];
      }
    }
  }

  lemma OrderingAlways(cfg: Config, actions: seq<Action>, s: State)
    requires Reaches(cfg, actions, s)
    ensures Ordering(cfg, s)
  {
    InvariantAlways(cfg, actions, s);
  }

  lemma {:induction false} SentSoundAlways(cfg: Config, actions: seq<Action>, s: State)
    requires Reaches(cfg, actions, s)
    ensures SentSound(s)
  {
    if actions != [] {
      var n := |actions| - 1;
      var before := BeforeLast(cfg, actions, s);
      SentSoundAlways(cfg, actions[..n], before);
      OrderingAlways(cfg, actions[..n], before);
      match actions[n]
      case OfPrimary(i, p) => PrimarySends(cfg, before, i, p);
      case OfHedge(k, h) => HedgeSends(cfg, before, k, h);
      case _ => OthersSendNothing(cfg, before, actions[n]);
    }
  }

  lemma {:induction false} SentOnlyGrows(cfg: Config, actions: seq<Action>, n: nat, t: State, s: State)
    requires n <= |actions| && Reaches(cfg, actions[..n], t) && Reaches(cfg, actions, s)
    ensures t.channel.sent <= s.channel.sent
  {
    if n == |actions| {
      assert actions[..n] == actions && t == s;
    } else {
      var last := |actions| - 1;
      var before := BeforeLast(cfg, actions, s);
      assert actions[..last][..n] == actions[..n];
      SentOnlyGrows(cfg, actions[..last], n, t, before);
      SentKept(cfg, before, actions[last]);
    }
  }

  lemma SentKept(cfg: Config, s: State, a: Action)
    requires Enabled(cfg, s, a)
    ensures s.channel.sent <= Apply(cfg, s, a).channel.sent
  {
  }

  // ----- Every quote is an answer -----

  /** Every quote in the result is what some adapter answered, unchanged, and if it came from a
      hedge, marked as a hedge's. */
  lemma ResultsAreAnswers(cfg: Config, actions: seq<Action>, s: State, q: Quote)
    requires Reaches(cfg, actions, s) && s.main.pc.Returned? && q in s.main.pc.out
    ensures (exists i: nat :: OfPrimary(i, PrimaryStep.Answer(q)) in actions)
            || exists k: nat :: HedgeAnswered(actions, k, q)
  {
    ResultIsSound(cfg, actions, s);
    assert IsFirstArrival(s.channel.sent, q);
    assert q in s.channel.sent;
    SentSoundAlways(cfg, actions, s);
    CarriedAlways(cfg, actions, s);
    if i :| 0 <= i < |s.primaries| && s.primaries[i].Ended? && s.primaries[i].how == Sent(q) {
      assert PrimaryQuote(s, i) == Some(q);
    } else {
      var k :| 0 <= k < |s.hedges| && s.hedges[k].pc == Finished(Delivered(q));
      assert HedgeQuote(s, k) == Some(q);
    }
  }

  // ----- No answer is lost before its context ends -----

  lemma SentIsReturned(cfg: Config, actions: seq<Action>, s: State, q: Quote)
    requires Reaches(cfg, actions, s) && s.main.pc.Returned? && q in s.channel.sent
    ensures Arrived(s.main.pc.out, q.carrierId)
  {
    InvariantAlways(cfg, actions, s);
    NobodyLeftBehind(cfg, actions, s);
    var j :| 0 <= j < |s.channel.sent| && s.channel.sent[j] == q;
    assert Arrived(s.main.received, q.carrierId);
    KeepsExactlyFirstArrivals(s.main.received);
    SortKeepsCarriers(s.main.collected, s.main.pc.out, q.carrierId);
  }

  /** A hedge gives up its quote only after its context has ended. */
  ghost predicate AbandonedLate(s: State) {
    forall k :: 0 <= k < |s.hedges| && s.hedges[k].pc.Finished? && s.hedges[k].pc.end.Abandoned? ==> HedgeDone(s)
  }

  lemma AbandonedStep(cfg: Config, s: State, a: Action)
    requires AbandonedLate(s) && Launches(cfg, s.main, s.primaries, s.waiter.pc) && Enabled(cfg, s, a)
    ensures AbandonedLate(Apply(cfg, s, a))
  {
    DoneStaysDone(cfg, s, a);
  }

  lemma {:induction false} AbandonedAlways(cfg: Config, actions: seq<Action>, s: State)
    requires Reaches(cfg, actions, s)
    ensures AbandonedLate(s)
  {
    if actions != [] {
      var n := |actions| - 1;
      var before := BeforeLast(cfg, actions, s);
      AbandonedAlways(cfg, actions[..n], before);
      LaunchesAlways(cfg, actions[..n], before);
      AbandonedStep(cfg, before, actions[n]);
    }
  }

  /** A hedge whose adapter answered, and that had finished when the deadline had not passed and
      not all primaries had ended, has its target's carrier in the result. */
  lemma HedgeAnswersAreReturned(cfg: Config, actions: seq<Action>, s: State, n: nat, t: State, k: nat, q: Quote)
    requires Reaches(cfg, actions, s) && s.main.pc.Returned?
    requires n <= |actions| && Reaches(cfg, actions[..n], t) && !t.deadline && !AllEnded(t.primaries)
    requires HedgeAnswered(actions[..n], k, q) && k < |t.hedges| && t.hedges[k].pc.Finished?
    ensures q in s.channel.sent && q.isHedged && Arrived(s.main.pc.out, q.carrierId)
    ensures t.hedges[k].fire.target < |cfg.hedgeable| && q.carrierId == cfg.hedgeable[t.hedges[k].fire.target].id
  {
    CarriedAlways(cfg, actions[..n], t);
    assert HedgeQuote(t, k) == Some(q);
    AbandonedAlways(cfg, actions[..n], t);
    ContextsEnd(cfg, actions[..n], t);
    OrderingAlways(cfg, actions[..n], t);
    SentSoundAlways(cfg, actions[..n], t);
    assert SentByAHedge(t, q) && q in t.channel.sent;
    SentOnlyGrows(cfg, actions, n, t, s);
    SentIsReturned(cfg, actions, s, q);
    TargetsAlways(cfg, actions[..n], t);
  }

  /** Every quote that a hedge carries is its target's. */
  ghost predicate TargetsSound(cfg: Config, s: State) {
    forall k :: 0 <= k < |s.hedges| && QuoteOfHedge(s.hedges[k].pc).Some? ==>
      OfTarget(cfg, s.hedges[k], QuoteOfHedge(s.hedges[k].pc).value)
  }

  lemma TargetsStep(cfg: Config, s: State, a: Action)
    requires SetUp(cfg) && TargetsSound(cfg, s) && Enabled(cfg, s, a)
    ensures TargetsSound(cfg, Apply(cfg, s, a))
  {
    if a.OfHedge? {
      HedgeCarries(Target(cfg, s.hedges[a.k]), s.hedges[a.k].pc, a.h);
      assert cfg.hedgeable[s.hedges[a.k].fire.target] in cfg.hedgeable;
    }
  }

  lemma {:induction false} TargetsAlways(cfg: Config, actions: seq<Action>, s: State)
    requires Reaches(cfg, actions, s)
    ensures TargetsSound(cfg, s)
  {
    if actions != [] {
      var n := |actions| - 1;
      var before := BeforeLast(cfg, actions, s);
      TargetsAlways(cfg, actions[..n], before);
      TargetsStep(cfg, before, actions[n]);
    }
  }

  /** While its context has not ended, a hedge can take every answer of its target, and then it
      can only send it, marked as a hedge's. */
  lemma HedgeAnswerGoesOut(cfg: Config, actions: seq<Action>, s: State, k: nat, answer: Quote)
    requires Reaches(cfg, actions, s) && !HedgeDone(s)
    requires k < |s.hedges| && s.hedges[k].fire.target < |cfg.hedgeable| && s.hedges[k].pc.Calling?
    requires answer.carrierId == cfg.hedgeable[s.hedges[k].fire.target].id
    ensures Enabled(cfg, s, OfHedge(k, HedgeAnswers(answer)))
    ensures var t := Apply(cfg, s, OfHedge(k, HedgeAnswers(answer)));
      && (forall h :: HedgeEnabled(cfg, t, k, h) <==> h == HedgeDelivers)
      && Apply(cfg, t, OfHedge(k, HedgeDelivers)).channel.sent == s.channel.sent + [answer.(isHedged := true)]
  {
    var a := OfHedge(k, HedgeAnswers(answer));
    var t := Apply(cfg, s, a);
    assert Reaches(cfg, actions + [a], t) by {
      assert (actions + [a])[..|actions|] == actions;
    }
    InvariantAlways(cfg, actions + [a], t);
    SentBounds(cfg, t);
    assert t.hedges[k].pc.Sending? && SomeoneUnsent(t);
    OrderingHedge(cfg, t, k, MoveHedge(Target(cfg, t.hedges[k]), t.hedges[k].pc, HedgeDelivers));
  }

  // ----- The primaries' answers -----

  /** The deadline came before the group's Wait returned. */
  ghost predicate DeadlineBeforeWait(actions: seq<Action>) {
    exists d, w :: 0 <= d < w < |actions| && actions[d] == Deadline && actions[w] == OfWaiter(WaitReturns)
  }

  /** What the state remembers of the deadline. */
  ghost predicate DeadlineKnown(actions: seq<Action>, s: State) {
    && (s.deadline <==> Deadline in actions)
    && (OfWaiter(WaitReturns) in actions ==> WaitReturned(s.waiter.pc))
    && (WaitReturned(s.waiter.pc) ==> (s.waiter.deadlineFirst <==> DeadlineBeforeWait(actions)))
  }

  lemma DeadlineBeforeWaitNext(actions: seq<Action>, a: Action)
    ensures DeadlineBeforeWait(actions + [a]) <==>
            DeadlineBeforeWait(actions) || (a == OfWaiter(WaitReturns) && Deadline in actions)
  {
    var longer := actions + [a];
    if DeadlineBeforeWait(actions) {
      var d, w :| 0 <= d < w < |actions| && actions[d] == Deadline && actions[w] == OfWaiter(WaitReturns);
      assert longer[d] == Deadline && longer[w] == OfWaiter(WaitReturns);
    }
    if a == OfWaiter(WaitReturns) && Deadline in actions {
      var d :| 0 <= d < |actions| && actions[d] == Deadline;
      assert longer[d] == Deadline && longer[|actions|] == a;
    }
    if d, w :| 0 <= d < w < |longer| && longer[d] == Deadline && longer[w] == OfWaiter(WaitReturns) {
      assert longer[d] == actions[d];
    }
  }

  lemma DeadlineStep(cfg: Config, actions: seq<Action>, s: State, a: Action)
    requires DeadlineKnown(actions, s) && Launches(cfg, s.main, s.primaries, s.waiter.pc) && Enabled(cfg, s, a)
    ensures DeadlineKnown(actions + [a], Apply(cfg, s, a))
  {
    DeadlineBeforeWaitNext(actions, a);
    if DeadlineBeforeWait(actions) {
      assert OfWaiter(WaitReturns) in actions;
    }
  }

  lemma {:induction false} DeadlineKnownAlways(cfg: Config, actions: seq<Action>, s: State)
    requires Reaches(cfg, actions, s)
    ensures DeadlineKnown(actions, s)
  {
    if actions != [] {
      var n := |actions| - 1;
      var before := BeforeLast(cfg, actions, s);
      DeadlineKnownAlways(cfg, actions[..n], before);
      LaunchesAlways(cfg, actions[..n], before);
      DeadlineStep(cfg, actions[..n], before, actions[n]);
      assert actions[..n] + [actions[n]] == actions;
    }
  }

  /** If the deadline does not come before the primaries have finished, every primary whose
      adapter answered has its carrier in the result. */
  lemma AnswersAreReturned(cfg: Config, actions: seq<Action>, s: State, i: nat, q: Quote)
    requires Reaches(cfg, actions, s) && s.main.pc.Returned? && !DeadlineBeforeWait(actions)
    requires OfPrimary(i, PrimaryStep.Answer(q)) in actions
    ensures i < |cfg.eligible| && q in s.channel.sent && Arrived(s.main.pc.out, cfg.eligible[i])
  {
    CarriedAlways(cfg, actions, s);
    assert PrimaryQuote(s, i) == Some(q);
    NobodyLeftBehind(cfg, actions, s);
    assert s.primaries[i].how == Sent(q) by {
      NothingDropped(cfg, actions, s, i);
    }
    AnswerSent(cfg, actions, s, i, q);
    SentIsReturned(cfg, actions, s, q);
  }

  lemma NothingDropped(cfg: Config, actions: seq<Action>, s: State, i: nat)
    requires Reaches(cfg, actions, s) && WaitReturned(s.waiter.pc) && !DeadlineBeforeWait(actions)
    requires i < |s.primaries| && s.primaries[i].Ended?
    ensures !s.primaries[i].how.Dropped?
  {
    DeadlineKnownAlways(cfg, actions, s);
    InvariantAlways(cfg, actions, s);
  }

  lemma AnswerSent(cfg: Config, actions: seq<Action>, s: State, i: nat, q: Quote)
    requires Reaches(cfg, actions, s)
    requires i < |s.primaries| && s.primaries[i].Ended? && s.primaries[i].how == Sent(q)
    ensures i < |cfg.eligible| && q in s.channel.sent && q.carrierId == cfg.eligible[i]
  {
    InvariantAlways(cfg, actions, s);
  }
}
