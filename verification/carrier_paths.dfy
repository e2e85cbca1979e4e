/** The two views of a carrier call agree: what CallCarrier does at one go is exactly what a
    primary of the fan-out does step by step, up to the delivery of its quote. */
module CarrierPaths {
  import opened Domain
  import opened CarrierCall
  import opened FanOut

  /** Where the steps lead, and the statuses that they record. */
  datatype Path = Path(end: Primary, statuses: seq<Status>)

  function Walk(cfg: Config, carrier: string, from: Path, steps: seq<PrimaryStep>): Option<Path>
    decreases |steps|
  {
    if steps == [] then Some(from)
    else if !PrimaryCan(carrier, from.end, steps[0]) then None
    else Walk(cfg, carrier, Advanced(cfg, carrier, from, steps[0]), steps[1..])
  }

  function Advanced(cfg: Config, carrier: string, from: Path, p: PrimaryStep): Path
    requires PrimaryCan(carrier, from.end, p)
  {
    var m := MovePrimary(cfg, carrier, from.end, p);
    Path(m.next, if m.status.Some? then from.statuses + [m.status.value] else from.statuses)
  }

  const START := Path(Lookup, [])

  /** The call is over, but for the delivery of its quote. */
  predicate Settled(p: Primary) {
    p.Delivering? || (p.Ended? && !p.how.Sent? && !p.how.Dropped?)
  }

  function QuoteAt(p: Primary): Option<Quote> {
    if p.Delivering? then Some(p.quote) else None
  }

  lemma WalkOn(cfg: Config, carrier: string, from: Path, p: PrimaryStep, rest: seq<PrimaryStep>)
    requires PrimaryCan(carrier, from.end, p)
    ensures Walk(cfg, carrier, from, [p] + rest) == Walk(cfg, carrier, Advanced(cfg, carrier, from, p), rest)
  {
    assert ([p] + rest)[1..] == rest;
  }

  function StepsAtAdapter(answer: Answer, offered: Option<Quote>): seq<PrimaryStep> {
    match answer
    case Errored(e) => [Fail(e)]
    case Quoted(_) => if offered.Some? then [PrimaryStep.Answer(offered.value)] else []
  }

  /** The steps of a call with these circumstances. */
  function StepsOf(
    registered: bool, limited: bool, admitted: bool, answer: Answer, offered: Option<Quote>): seq<PrimaryStep> {
    if !registered then [Find]
    else if limited then [Find] + [MissToken]
    else if !admitted then [Find] + ([TakeToken] + [Reject])
    else [Find] + ([TakeToken] + ([Admit] + StepsAtAdapter(answer, offered)))
  }

  /** Every outcome of CallCarrier is the outcome of a path of the primary's steps, with the
      same statuses and the same quote; and no error is returned to the group. */
  lemma CallsArePaths(cfg: Config, carrier: string, limited: bool, admitted: bool, answer: Answer,
                      requestId: string, latency: int, statuses: seq<Status>, offered: Option<Quote>)
    returns (steps: seq<PrimaryStep>, end: Primary)
    requires answer.Quoted? ==> answer.quote.carrierId == carrier
    requires CarriedOut(carrier in cfg.registered, limited, admitted, answer, requestId, latency, statuses, offered)
    ensures Walk(cfg, carrier, START, steps) == Some(Path(end, statuses))
    ensures Settled(end) && QuoteAt(end) == offered && (end.Ended? ==> end.returned == None)
  {
    var registered, last := carrier in cfg.registered, StepsAtAdapter(answer, offered);
    steps := StepsOf(registered, limited, admitted, answer, offered);
    end := if !registered then Ended(NoAdapter, None)
           else if limited then Ended(Limited, None)
           else if !admitted then Ended(Unsuccessful(CircuitWasOpen), None)
           else if answer.Quoted? then Delivering(offered.value)
           else Ended(Unsuccessful(Classify(answer.error)), None);
    assert registered ==> statuses == [] + [statuses[0]];
    if !registered {
      assert steps == [Find] + [];
      WalkOn(cfg, carrier, START, Find, []);
    } else if limited {
      WalkOn(cfg, carrier, START, Find, [MissToken]);
    } else if !admitted {
      WalkOn(cfg, carrier, START, Find, [TakeToken] + [Reject]);
      WalkOn(cfg, carrier, Path(AtLimiter, []), TakeToken, [Reject]);
    } else {
      WalkOn(cfg, carrier, START, Find, [TakeToken] + ([Admit] + last));
      WalkOn(cfg, carrier, Path(AtLimiter, []), TakeToken, [Admit] + last);
      WalkOn(cfg, carrier, Path(AtBreaker, []), Admit, last);
      assert last[1..] == [] && statuses[0] in statuses;
    }
  }

  /** Every path on which a primary settles is an outcome of CallCarrier. */
  lemma PathsAreCalls(cfg: Config, carrier: string, steps: seq<PrimaryStep>, end: Primary, statuses: seq<Status>)
    returns (limited: bool, admitted: bool, answer: Answer, requestId: string, latency: int)
    requires Walk(cfg, carrier, START, steps) == Some(Path(end, statuses)) && Settled(end)
    ensures answer.Quoted? && admitted && !limited ==> answer.quote.carrierId == carrier
    ensures CarriedOut(carrier in cfg.registered, limited, admitted, answer, requestId, latency, statuses, QuoteAt(end))
  {
    limited, admitted, answer, requestId, latency := false, false, Errored(CircuitOpen), "", 0;
    var later := steps[1..];
    if carrier !in cfg.registered {
      StopsThere(cfg, carrier, Path(Ended(NoAdapter, None), []), later);
    } else if later[0].MissToken? {
      assert Walk(cfg, carrier, Path(AtLimiter, []), later) == Some(Path(end, statuses));
      limited := true;
      StopsThere(cfg, carrier, Path(Ended(Limited, None), [] + [RateLimited]), later[1..]);
    } else {
      assert Walk(cfg, carrier, Path(AtLimiter, []), later) == Some(Path(end, statuses));
      assert Walk(cfg, carrier, Path(AtBreaker, []), later[1..]) == Some(Path(end, statuses));
      admitted := later[1..][0].Admit?;
      var last := later[1..][1..];
      if admitted {
        answer := AnswerOf(cfg, carrier, last, end, statuses);
        if end.Delivering? {
          requestId, latency := end.quote.requestId, end.quote.latency;
        }
      } else {
        StopsThere(cfg, carrier, Path(Ended(Unsuccessful(CircuitWasOpen), None), [] + [CircuitWasOpen]), last);
      }
    }
  }

  /** A settled call goes on only to deliver or drop its quote. */
  lemma StopsThere(cfg: Config, carrier: string, at: Path, steps: seq<PrimaryStep>)
    requires Settled(at.end)
    requires Walk(cfg, carrier, at, steps).Some? && Settled(Walk(cfg, carrier, at, steps).value.end)
    ensures Walk(cfg, carrier, at, steps) == Some(at)
  {
  }

  lemma AnswerOf(cfg: Config, carrier: string, steps: seq<PrimaryStep>, end: Primary, statuses: seq<Status>)
    returns (answer: Answer)
    requires Walk(cfg, carrier, Path(AtAdapter, []), steps) == Some(Path(end, statuses)) && Settled(end)
    ensures match answer
            case Quoted(q) => end == Delivering(q) && q.carrierId == carrier && statuses == [Success]
            case Errored(e) => QuoteAt(end) == None && statuses == [Classify(e)]
  {
    match steps[0]
    case Fail(e) =>
      StopsThere(cfg, carrier, Path(Ended(Unsuccessful(Classify(e)), None), [] + [Classify(e)]), steps[1..]);
      return Errored(e);
    case Answer(q) =>
      StopsThere(cfg, carrier, Path(Delivering(q), [] + [Success]), steps[1..]);
      return Quoted(q);
  }
}
