/** One primary carrier call: rate limiter, circuit breaker, adapter, metrics. */
module CarrierCall {
  import opened Domain
  import BreakerHistory
  import CircuitBreaker
  import Ema

  /** The quote statuses of the metrics. */
  datatype Status = Success | CircuitWasOpen | RateLimited | TimedOut | Failed

  /** classifyError. */
  function Classify(e: Error): Status {
    match e
    case CircuitOpen => CircuitWasOpen
    case RateLimitExceeded => RateLimited
    case DeadlineExceeded | CarrierTimeout => TimedOut
    case Other(_) => Failed
  }

  /** What the adapter does with the request. */
  datatype Answer = Quoted(quote: Quote) | Errored(error: Error) {
    function AsError(): Option<Error> {
      if Errored? then Some(error) else None
    }
  }

  /** What a call reports and offers to the results channel, given whether the carrier has an
      adapter, whether it was rate limited, whether its breaker let it through, and what the
      adapter answered. */
  ghost predicate CarriedOut(
    registered: bool, limited: bool, admitted: bool, answer: Answer, requestId: string, latency: int,
    statuses: seq<Status>, offered: Option<Quote>)
  {
    var reached := registered && !limited;
    var called := reached && admitted;
    && (statuses == [] <==> !registered) && (registered ==> |statuses| == 1)
    && (Success in statuses <==> called && answer.Quoted?)
    && (offered.Some? <==> called && answer.Quoted?)
    && (called && answer.Errored? ==> statuses == [Classify(answer.error)])
    && (reached && !called ==> statuses == [CircuitWasOpen])
    && (registered && limited ==> statuses == [RateLimited])
    && (offered.Some? ==> offered.value == answer.quote.(requestId := requestId, latency := latency))
  }

  /** Runs the pipeline. `limited` is the limiter's verdict; the adapter is asked at `start`
      and answers at `finish` if the breaker lets the call through. Returns the statuses
      recorded, the quote offered to the results channel, and the error for the group. */
  method CallCarrier(
    breaker: CircuitBreaker.Breaker, tracker: Ema.Tracker, requestId: string,
    registered: bool, limited: bool, start: int, finish: int, answer: Answer)
    returns (statuses: seq<Status>, offered: Option<Quote>, returned: Option<Error>)
    requires breaker.Valid() && tracker.Valid()
    modifies breaker, tracker
    ensures breaker.Valid() && tracker.Valid() && returned == None
    ensures var call := BreakerHistory.Call(start, finish, answer.Quoted?);
            var reached := registered && !limited;
            var admitted := BreakerHistory.Admits(breaker.cfg, old(breaker.Value()), call);
      && CarriedOut(registered, limited, admitted, answer, requestId, finish - start, statuses, offered)
      && (reached && admitted && answer.Errored? ==>
            && |statuses| == 1
            && (statuses[0] == TimedOut <==> answer.error.DeadlineExceeded? || answer.error.CarrierTimeout?)
            && (statuses[0] == Failed <==> answer.error.Other?)
            && (statuses[0] == CircuitWasOpen <==> answer.error.CircuitOpen?)
            && (statuses[0] == RateLimited <==> answer.error.RateLimitExceeded?))
      && breaker.history == old(breaker.history) + (if reached then [call] else [])
      && tracker.observed == old(tracker.observed)
           + (if reached && admitted && answer.Quoted? then [Ema.Milliseconds(finish - start)] else [])
  {
    statuses, offered, returned := [], None, None;
    if !registered {
      return;
    }
    if limited {
      statuses := [RateLimited];
      return;
    }
    var invoked, err := breaker.Execute(start, finish, answer.AsError());
    if invoked && answer.Quoted? {
      tracker.Record(finish - start);
      statuses := [Success];
      offered := Some(answer.quote.(requestId := requestId, latency := finish - start));
    }
    if err.Some? {
      statuses := statuses + [Classify(err.value)];
    }
  }
}
