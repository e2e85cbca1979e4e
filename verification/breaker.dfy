/** The circuit breaker as an object, used by calls that do not overlap. */
module CircuitBreaker {
  import opened Domain
  import opened BreakerHistory

  type Transition = (State, State)

  predicate Legal(t: Transition) {
    t in {(Closed, Open), (Open, HalfOpen), (HalfOpen, Open), (HalfOpen, Closed)}
  }

  /** The transitions form an unbroken path of legal edges. */
  ghost predicate Path(ts: seq<Transition>, from: State, to: State) {
    if ts == [] then from == to
    else
      var last := ts[|ts| - 1];
      Legal(last) && last.1 == to && Path(ts[..|ts| - 1], from, last.0)
  }

  lemma PathExtends(ts: seq<Transition>, from: State, mid: State, to: State)
    requires Path(ts, from, mid) && Legal((mid, to))
    ensures Path(ts + [(mid, to)], from, to)
  {
    assert (ts + [(mid, to)])[..|ts|] == ts;
  }

  lemma RunNext(cfg: Config, history: seq<Call>, call: Call)
    ensures Run(cfg, history + [call]) == Step(cfg, Run(cfg, history), call)
  {
    assert (history + [call])[..|history|] == history;
  }

  class Breaker {
    const cfg: Config
    var state: State
    var failures: nat
    var successes: nat
    var halfOpenInFlight: int
    var openedAt: int

    // What the metrics recorder has been told, and the calls made so far.
    ghost var gauge: State
    ghost var transitions: seq<Transition>
    ghost var history: seq<Call>

    ghost function Value(): Counters
      reads this
    {
      Counters(state, failures, successes, openedAt)
    }

    /** Holds between calls: no probe is in flight, the gauge shows the state, the
        recorded transitions lead to it, and the counters are those of the history. */
    ghost predicate Valid()
      reads this
    {
      && Usable(cfg) && Reported() && halfOpenInFlight == 0
      && Value() == Run(cfg, history)
    }

    ghost predicate Reported()
      reads this
    {
      gauge == state && Path(transitions, Closed, state)
    }

    constructor (config: Config)
      ensures Valid() && history == [] && transitions == []
      ensures cfg == WithDefaults(config) && state == Closed
    {
      cfg := WithDefaults(config);
      state, failures, successes, halfOpenInFlight, openedAt := Closed, 0, 0, 0, 0;
      gauge, transitions, history := Closed, [], [];
    }

    /** Swaps the state if it is the expected one. */
    method CompareAndSwapState(expected: State, next: State) returns (swapped: bool)
      modifies this`state
      ensures swapped == (old(state) == expected)
      ensures state == if swapped then next else old(state)
    {
      swapped := state == expected;
      if swapped { state := next; }
    }

    ghost method RecordTransition(from: State, to: State)
      requires Legal((from, to)) && gauge == from && Path(transitions, Closed, from)
      modifies this`gauge, this`transitions
      ensures gauge == to && transitions == old(transitions) + [(from, to)]
      ensures Path(transitions, Closed, to)
    {
      PathExtends(transitions, Closed, from, to);
      transitions, gauge := transitions + [(from, to)], to;
    }

    /** Runs one call through the breaker. `fnErr` is what fn returns if it is invoked. */
    method Execute(start: int, finish: int, fnErr: Option<Error>) returns (invoked: bool, err: Option<Error>)
      requires Valid()
      modifies this
      ensures Valid() && history == old(history) + [Call(start, finish, fnErr.None?)]
      ensures invoked == Admits(cfg, old(Value()), Call(start, finish, fnErr.None?))
      ensures err == if invoked then fnErr else Some(Error.CircuitOpen)
      ensures var first := if old(state) == Open && invoked then [(Open, HalfOpen)] else [];
              var from := if old(state) == Open && invoked then HalfOpen else old(state);
              transitions == old(transitions) + first + if state == from then [] else [(from, state)]
    {
      ghost var before := Value();
      ghost var call := Call(start, finish, fnErr.None?);
      assert transitions + [] == transitions;
      match state {
      case Open =>
        if start - openedAt < cfg.openTimeout {
          invoked, err := false, Some(Error.CircuitOpen);
        } else {
          var swapped := CompareAndSwapState(Open, HalfOpen);
          if swapped {
            RecordTransition(Open, HalfOpen);
          }
          invoked, err := ExecuteHalfOpen(finish, fnErr);
        }
      case HalfOpen =>
        invoked, err := ExecuteHalfOpen(finish, fnErr);
      case Closed =>
        invoked := true;
        err := ExecuteClosed(finish, fnErr);
      }
      assert Value() == Step(cfg, before, call);
      RunNext(cfg, history, call);
      history := history + [call];
    }

    method ExecuteClosed(finish: int, fnErr: Option<Error>) returns (err: Option<Error>)
      requires Usable(cfg) && Reported() && state == Closed
      modifies this`state, this`failures, this`openedAt, this`gauge, this`transitions
      ensures Reported() && err == fnErr
      ensures transitions == old(transitions) + if state == old(state) then [] else [(old(state), state)]
      ensures forall start :: Value() == Step(cfg, old(Value()), Call(start, finish, fnErr.None?))
    {
      err := fnErr;
      if err.Some? {
        failures := failures + 1;
        if failures >= cfg.failureThreshold {
          var swapped := CompareAndSwapState(Closed, Open);
          if swapped {
            openedAt := finish;
            RecordTransition(Closed, Open);
          }
        }
      } else {
        failures := 0;
      }
    }

    method ExecuteHalfOpen(finish: int, fnErr: Option<Error>) returns (invoked: bool, err: Option<Error>)
      requires Usable(cfg) && Reported() && state == HalfOpen
      modifies this`state, this`failures, this`successes, this`openedAt, this`halfOpenInFlight
      modifies this`gauge, this`transitions
      ensures Reported() && invoked == (old(halfOpenInFlight) == 0)
      ensures transitions == old(transitions) + if state == old(state) then [] else [(old(state), state)]
      ensures invoked ==> err == fnErr && halfOpenInFlight == 0
      ensures invoked ==> forall start :: Value() == Step(cfg, old(Value()), Call(start, finish, fnErr.None?))
      ensures !invoked ==> err == Some(Error.CircuitOpen) && unchanged(this)
    {
      if halfOpenInFlight != 0 {
        return false, Some(Error.CircuitOpen);
      }
      halfOpenInFlight := 1;
      invoked, err := true, fnErr;
      if err.Some? {
        var swapped := CompareAndSwapState(HalfOpen, Open);
        if swapped {
          openedAt := finish;
          successes := 0;
          RecordTransition(HalfOpen, Open);
        }
      } else {
        successes := successes + 1;
        if successes >= cfg.successThreshold {
          var swapped := CompareAndSwapState(HalfOpen, Closed);
          if swapped {
            failures := 0;
            successes := 0;
            RecordTransition(HalfOpen, Closed);
          }
        }
      }
      halfOpenInFlight := 0;
    }
  }
}
