/** The circuit breaker when calls do not overlap: the counter machine that the code
    runs, and a specification that looks only at the history of calls. */
module BreakerHistory {

  datatype State = Closed | Open | HalfOpen

  datatype Config = Config(failureThreshold: int, successThreshold: int, openTimeout: int)

  const DEFAULT_FAILURE_THRESHOLD := 5
  const DEFAULT_OPEN_TIMEOUT := 30_000_000_000

  ghost predicate Usable(cfg: Config) {
    1 <= cfg.failureThreshold && 1 <= cfg.successThreshold && 1 <= cfg.openTimeout
  }

  /** The defaulting done by `New`: fields that are usable already are kept. */
  function WithDefaults(cfg: Config): (r: Config)
    ensures Usable(r)
    ensures Usable(cfg) ==> r == cfg
    ensures 1 <= cfg.failureThreshold ==> r.failureThreshold == cfg.failureThreshold
    ensures 1 <= cfg.successThreshold ==> r.successThreshold == cfg.successThreshold
    ensures 1 <= cfg.openTimeout ==> r.openTimeout == cfg.openTimeout
    ensures cfg.failureThreshold <= 0 ==> r.failureThreshold == 5
    ensures cfg.successThreshold <= 0 ==> r.successThreshold == 1
    ensures cfg.openTimeout <= 0 ==> r.openTimeout == 30_000_000_000
  {
    Config(
      if cfg.failureThreshold <= 0 then DEFAULT_FAILURE_THRESHOLD else cfg.failureThreshold,
      if cfg.successThreshold <= 0 then 1 else cfg.successThreshold,
      if cfg.openTimeout <= 0 then DEFAULT_OPEN_TIMEOUT else cfg.openTimeout)
  }

  /** One call of Execute: the instant at which it is made, the instant at which fn
      returns, and whether fn succeeds. The last two matter only if fn is invoked. */
  datatype Call = Call(start: int, finish: int, ok: bool)

  // ----- The counter machine -----

  datatype Counters = Counters(state: State, failures: nat, successes: nat, openedAt: int)

  const INITIAL := Counters(Closed, 0, 0, 0)

  /** Whether fn is invoked. */
  predicate Admits(cfg: Config, c: Counters, call: Call) {
    c.state == Open ==> call.start - c.openedAt >= cfg.openTimeout
  }

  function Step(cfg: Config, c: Counters, call: Call): Counters {
    if c.state == Closed then
      if call.ok then c.(failures := 0)
      else if c.failures + 1 >= cfg.failureThreshold then
        c.(state := Open, failures := c.failures + 1, openedAt := call.finish)
      else c.(failures := c.failures + 1)
    else if !Admits(cfg, c, call) then c
    else if !call.ok then c.(state := Open, successes := 0, openedAt := call.finish)
    else if c.successes + 1 >= cfg.successThreshold then
      c.(state := Closed, failures := 0, successes := 0)
    else c.(state := HalfOpen, successes := c.successes + 1)
  }

  /** The counters after the whole sequence of calls. */
  function Run(cfg: Config, calls: seq<Call>): Counters {
    if calls == [] then INITIAL
    else Step(cfg, Run(cfg, calls[..|calls| - 1]), calls[|calls| - 1])
  }

  /** The counters found by call i. */
  function At(cfg: Config, calls: seq<Call>, i: nat): Counters
    requires i <= |calls|
  {
    Run(cfg, calls[..i])
  }

  lemma AtNext(cfg: Config, calls: seq<Call>, i: nat)
    requires i < |calls|
    ensures At(cfg, calls, i + 1) == Step(cfg, At(cfg, calls, i), calls[i])
  {
    assert calls[..i + 1][..i] == calls[..i];
  }

  ghost predicate Ran(cfg: Config, calls: seq<Call>, i: nat)
    requires i < |calls|
  {
    Admits(cfg, At(cfg, calls, i), calls[i])
  }

  // ----- The specification: a mode computed from the past, without any counter -----

  /** The calls i-n .. i-1 were all made while Closed, and all failed. */
  ghost predicate LastFailed(cfg: Config, calls: seq<Call>, i: nat, n: int)
    requires i <= |calls|
    decreases i, 0
  {
    n <= i && forall k :: 0 <= k < i && i - n <= k ==> Mode(cfg, calls, k) == Closed && !calls[k].ok
  }

  /** The calls i-n .. i-1 were all made while not Closed, and all ran and succeeded. */
  ghost predicate LastProbesSucceeded(cfg: Config, calls: seq<Call>, i: nat, n: int)
    requires i <= |calls|
    decreases i, 0
  {
    n <= i && forall k :: 0 <= k < i && i - n <= k ==>
      Mode(cfg, calls, k) != Closed && Invoked(cfg, calls, k) && calls[k].ok
  }

  /** The mode after the first i calls. */
  ghost function Mode(cfg: Config, calls: seq<Call>, i: nat): State
    requires i <= |calls|
    decreases i, 1
  {
    if i == 0 then Closed
    else
      var before := Mode(cfg, calls, i - 1);
      if before == Closed then
        if LastFailed(cfg, calls, i, cfg.failureThreshold) then Open else Closed
      else if !Invoked(cfg, calls, i - 1) then before
      else if !calls[i - 1].ok then Open
      else if LastProbesSucceeded(cfg, calls, i, cfg.successThreshold) then Closed
      else HalfOpen
  }

  /** When the breaker last opened, looking back from call i: the end of the last
      invoked call that left it Open. */
  ghost function LastOpening(cfg: Config, calls: seq<Call>, i: nat): int
    requires i <= |calls|
    decreases i, 2
  {
    if i == 0 then 0
    else if Invoked(cfg, calls, i - 1) && Mode(cfg, calls, i) == Open then calls[i - 1].finish
    else LastOpening(cfg, calls, i - 1)
  }

  ghost predicate Invoked(cfg: Config, calls: seq<Call>, i: nat)
    requires i < |calls|
    decreases i, 3
  {
    Mode(cfg, calls, i) == Open ==> calls[i].start - LastOpening(cfg, calls, i) >= cfg.openTimeout
  }

  // ----- Refinement -----

  /** The meaning of the counters in terms of the history. */
  ghost predicate Explained(cfg: Config, calls: seq<Call>, i: nat)
    requires i <= |calls|
  {
    var c := At(cfg, calls, i);
    && c.state == Mode(cfg, calls, i)
    && (c.state != Closed ==> c.openedAt == LastOpening(cfg, calls, i))
    && (c.state == Closed ==>
          && c.failures < cfg.failureThreshold && c.successes == 0
          && LastFailed(cfg, calls, i, c.failures) && !LastFailed(cfg, calls, i, c.failures + 1))
    && (c.state == Open ==> c.successes == 0 && !LastProbesSucceeded(cfg, calls, i, 1))
    && (c.state == HalfOpen ==>
          && c.successes < cfg.successThreshold
          && LastProbesSucceeded(cfg, calls, i, c.successes)
          && !LastProbesSucceeded(cfg, calls, i, c.successes + 1))
  }

  lemma LastFailedNext(cfg: Config, calls: seq<Call>, i: nat, n: nat)
    requires i < |calls|
    ensures LastFailed(cfg, calls, i + 1, n + 1) <==>
            LastFailed(cfg, calls, i, n) && Mode(cfg, calls, i) == Closed && !calls[i].ok
  {
    if LastFailed(cfg, calls, i + 1, n + 1) {
      assert Mode(cfg, calls, i) == Closed;
    }
  }

  lemma LastProbesSucceededNext(cfg: Config, calls: seq<Call>, i: nat, n: nat)
    requires i < |calls|
    ensures LastProbesSucceeded(cfg, calls, i + 1, n + 1) <==>
            LastProbesSucceeded(cfg, calls, i, n)
            && Mode(cfg, calls, i) != Closed && Invoked(cfg, calls, i) && calls[i].ok
  {
    if LastProbesSucceeded(cfg, calls, i + 1, n + 1) {
      assert Mode(cfg, calls, i) != Closed;
    }
  }

  lemma LastFailedShorter(cfg: Config, calls: seq<Call>, i: nat, n: int, m: int)
    requires i <= |calls| && m <= n
    ensures LastFailed(cfg, calls, i, n) ==> LastFailed(cfg, calls, i, m)
  {
  }

  lemma LastProbesSucceededShorter(cfg: Config, calls: seq<Call>, i: nat, n: int, m: int)
    requires i <= |calls| && m <= n
    ensures LastProbesSucceeded(cfg, calls, i, n) ==> LastProbesSucceeded(cfg, calls, i, m)
  {
  }

  /** The counters always mean what the history says, so the code's counter-based
      breaker is in exactly the mode that the history-only specification gives. */
  lemma {:induction false} CountersExplained(cfg: Config, calls: seq<Call>, i: nat)
    requires Usable(cfg) && i <= |calls|
    ensures Explained(cfg, calls, i)
  {
    if i == 0 {
      ExplainedAtFirst(cfg, calls);
    } else {
      CountersExplained(cfg, calls, i - 1);
      ExplainedNext(cfg, calls, i - 1);
    }
  }

  lemma ExplainedAtFirst(cfg: Config, calls: seq<Call>)
    requires Usable(cfg)
    ensures Explained(cfg, calls, 0)
  {
  }

  lemma ExplainedNext(cfg: Config, calls: seq<Call>, i: nat)
    requires Usable(cfg) && i < |calls| && Explained(cfg, calls, i)
    ensures Explained(cfg, calls, i + 1)
  {
    AtNext(cfg, calls, i);
    if At(cfg, calls, i).state == Closed {
      ExplainedFromClosed(cfg, calls, i);
    } else {
      ExplainedFromTripped(cfg, calls, i);
    }
  }

  lemma ExplainedFromClosed(cfg: Config, calls: seq<Call>, i: nat)
    requires Usable(cfg) && i < |calls|
    requires Explained(cfg, calls, i) && At(cfg, calls, i).state == Closed
    requires At(cfg, calls, i + 1) == Step(cfg, At(cfg, calls, i), calls[i])
    ensures Explained(cfg, calls, i + 1)
  {
    var f := At(cfg, calls, i).failures;
    LastFailedNext(cfg, calls, i, f);
    LastFailedNext(cfg, calls, i, f + 1);
    LastFailedNext(cfg, calls, i, 0);
    LastFailedNext(cfg, calls, i, cfg.failureThreshold - 1);
    if calls[i].ok {
      assert !LastFailed(cfg, calls, i + 1, 1);
    } else if f + 1 < cfg.failureThreshold {
      LastFailedShorter(cfg, calls, i, cfg.failureThreshold - 1, f + 1);
    }
    LastProbesSucceededNext(cfg, calls, i, 0);
  }

  lemma ExplainedFromTripped(cfg: Config, calls: seq<Call>, i: nat)
    requires Usable(cfg) && i < |calls|
    requires Explained(cfg, calls, i) && At(cfg, calls, i).state != Closed
    requires At(cfg, calls, i + 1) == Step(cfg, At(cfg, calls, i), calls[i])
    ensures Explained(cfg, calls, i + 1)
  {
    assert Admits(cfg, At(cfg, calls, i), calls[i]) <==> Invoked(cfg, calls, i);
    if !Invoked(cfg, calls, i) {
      LastProbesSucceededNext(cfg, calls, i, 0);
    } else if !calls[i].ok {
      LastProbesSucceededNext(cfg, calls, i, 0);
    } else {
      ExplainedAfterSuccess(cfg, calls, i);
    }
  }

  lemma ExplainedAfterSuccess(cfg: Config, calls: seq<Call>, i: nat)
    requires Usable(cfg) && i < |calls|
    requires Explained(cfg, calls, i) && At(cfg, calls, i).state != Closed
    requires At(cfg, calls, i + 1) == Step(cfg, At(cfg, calls, i), calls[i])
    requires Invoked(cfg, calls, i) && calls[i].ok
    ensures Explained(cfg, calls, i + 1)
  {
    var n := At(cfg, calls, i).successes;
    assert LastProbesSucceeded(cfg, calls, i, n) && !LastProbesSucceeded(cfg, calls, i, n + 1);
    if n + 1 >= cfg.successThreshold {
      LastProbesSucceededNext(cfg, calls, i, cfg.successThreshold - 1);
      LastFailedNext(cfg, calls, i, 0);
      assert !LastFailed(cfg, calls, i + 1, 1);
    } else {
      LastProbesSucceededNext(cfg, calls, i, n);
      LastProbesSucceededNext(cfg, calls, i, n + 1);
      LastProbesSucceededShorter(cfg, calls, i + 1, cfg.successThreshold, n + 2);
    }
  }

  /** The observable behaviour of the counter machine, call by call, is the specification's. */
  lemma RefinesHistory(cfg: Config, calls: seq<Call>, i: nat)
    requires Usable(cfg) && i < |calls|
    ensures At(cfg, calls, i).state == Mode(cfg, calls, i)
    ensures Ran(cfg, calls, i) <==> Invoked(cfg, calls, i)
  {
    CountersExplained(cfg, calls, i);
  }

  /** A call made while Closed trips the breaker exactly when it completes a row of
      FailureThreshold failing calls, all made while Closed. */
  lemma TripsExactly(cfg: Config, calls: seq<Call>, i: nat)
    requires Usable(cfg) && i < |calls| && At(cfg, calls, i).state == Closed
    ensures At(cfg, calls, i + 1).state == Open <==>
            cfg.failureThreshold <= i + 1
            && forall k :: i - cfg.failureThreshold < k <= i ==> At(cfg, calls, k).state == Closed && !calls[k].ok
    ensures At(cfg, calls, i + 1).state != Open ==> At(cfg, calls, i + 1).state == Closed
  {
    CountersExplained(cfg, calls, i);
    CountersExplained(cfg, calls, i + 1);
    forall k | 0 <= k <= i ensures At(cfg, calls, k).state == Mode(cfg, calls, k) {
      CountersExplained(cfg, calls, k);
    }
    assert At(cfg, calls, i + 1).state == Open <==> LastFailed(cfg, calls, i + 1, cfg.failureThreshold);
  }

  lemma ProbeOutcome(cfg: Config, calls: seq<Call>, i: nat)
    requires Usable(cfg) && i < |calls| && At(cfg, calls, i).state != Closed
    ensures Ran(cfg, calls, i) && !calls[i].ok ==> At(cfg, calls, i + 1).state == Open
    ensures Ran(cfg, calls, i) && calls[i].ok ==> At(cfg, calls, i + 1).state != Open
    ensures !Ran(cfg, calls, i) ==> At(cfg, calls, i + 1) == At(cfg, calls, i)
    ensures At(cfg, calls, i + 1).state == Closed <==>
            LastProbesSucceeded(cfg, calls, i + 1, cfg.successThreshold)
  {
    CountersExplained(cfg, calls, i);
    CountersExplained(cfg, calls, i + 1);
    AtNext(cfg, calls, i);
    LastProbesSucceededNext(cfg, calls, i, cfg.successThreshold - 1);
  }

  /** A call made while Open or HalfOpen closes the breaker exactly when it completes a
      row of SuccessThreshold successful probes; one failed probe re-opens it, and a
      rejected call changes nothing. */
  lemma ClosesExactly(cfg: Config, calls: seq<Call>, i: nat)
    requires Usable(cfg) && i < |calls| && At(cfg, calls, i).state != Closed
    ensures At(cfg, calls, i + 1).state == Closed <==>
            cfg.successThreshold <= i + 1
            && forall k :: i - cfg.successThreshold < k <= i ==>
                 At(cfg, calls, k).state != Closed && Ran(cfg, calls, k) && calls[k].ok
    ensures Ran(cfg, calls, i) && !calls[i].ok ==> At(cfg, calls, i + 1).state == Open
    ensures Ran(cfg, calls, i) && calls[i].ok ==> At(cfg, calls, i + 1).state != Open
    ensures !Ran(cfg, calls, i) ==> At(cfg, calls, i + 1) == At(cfg, calls, i)
  {
    ProbeOutcome(cfg, calls, i);
    forall k | 0 <= k <= i
      ensures At(cfg, calls, k).state == Mode(cfg, calls, k)
      ensures Ran(cfg, calls, k) <==> Invoked(cfg, calls, k)
    {
      RefinesHistory(cfg, calls, k);
    }
  }

  // ----- Time -----

  /** The calls are made one after the other on a clock that never goes back. */
  ghost predicate Sequential(calls: seq<Call>) {
    && (forall i :: 0 <= i < |calls| ==> calls[i].start <= calls[i].finish)
    && (forall i, j :: 0 <= i < j < |calls| ==> calls[i].finish <= calls[j].start)
  }

  /** Call j opened the breaker: fn was invoked and left it Open. */
  ghost predicate Opens(cfg: Config, calls: seq<Call>, j: nat)
    requires j < |calls|
  {
    Ran(cfg, calls, j) && At(cfg, calls, j + 1).state == Open
  }

  /** After an opening by call j, as long as nothing has been invoked since, the breaker
      is still Open and still remembers that instant. */
  lemma {:induction false} StaysOpen(cfg: Config, calls: seq<Call>, j: nat, i: nat)
    requires j < i <= |calls| && Opens(cfg, calls, j)
    requires forall k :: j < k < i ==> !Ran(cfg, calls, k)
    ensures At(cfg, calls, i).state == Open && At(cfg, calls, i).openedAt == calls[j].finish
  {
    AtNext(cfg, calls, i - 1);
    if i > j + 1 {
      StaysOpen(cfg, calls, j, i - 1);
      assert !Ran(cfg, calls, i - 1);
    }
  }

  /** fn is never invoked within OpenTimeout after an opening. */
  lemma {:induction false} OpenLastsTheTimeout(cfg: Config, calls: seq<Call>, j: nat, i: nat)
    requires j < i < |calls| && Sequential(calls)
    requires Opens(cfg, calls, j) && Ran(cfg, calls, i)
    ensures calls[i].start - calls[j].finish >= cfg.openTimeout
  {
    if k :| j < k < i && Ran(cfg, calls, k) {
      OpenLastsTheTimeout(cfg, calls, j, k);
    } else {
      StaysOpen(cfg, calls, j, i);
    }
  }

  /** Recovery: from every reachable state, once OpenTimeout has passed since the last
      opening, SuccessThreshold successful calls in a row leave the breaker Closed. */
  lemma {:induction false} Recovers(cfg: Config, past: seq<Call>, calls: seq<Call>)
    requires Usable(cfg) && |calls| >= cfg.successThreshold
    requires forall i :: 0 <= i < |calls| ==> calls[i].ok
    requires Run(cfg, past).state == Open ==> calls[0].start - Run(cfg, past).openedAt >= cfg.openTimeout
    ensures Run(cfg, past + calls).state == Closed
  {
    assert (past + calls)[..|past|] == past;
    CountersExplained(cfg, past + calls, |past|);
    RecoversStep(cfg, past, calls, |calls|);
    assert past + calls[..|calls|] == past + calls;
  }

  /** After n successful calls the breaker is Closed, or HalfOpen having counted at least n. */
  lemma {:induction false} RecoversStep(cfg: Config, past: seq<Call>, calls: seq<Call>, n: nat)
    requires Usable(cfg) && 1 <= n <= |calls|
    requires forall i :: 0 <= i < |calls| ==> calls[i].ok
    requires Admits(cfg, Run(cfg, past), calls[0])
    ensures var c := Run(cfg, past + calls[..n]);
            c.state == Closed || (c.state == HalfOpen && n <= c.successes < cfg.successThreshold)
  {
    var before := past + calls[..n - 1];
    assert (past + calls[..n])[..|past| + n - 1] == before;
    if n > 1 {
      RecoversStep(cfg, past, calls, n - 1);
    } else {
      assert before == past;
    }
  }
}
