/** What can be said of a whole run of the breaker: its clock, how many calls are in progress
    at once, when things happened, and the three guarantees one expects of a breaker. */
module BreakerRuns {
  import opened BreakerHistory
  import opened BreakerInterleaved

  // ----- Clock and calls in progress -----

  ghost function InProgress(s: System): set<nat> {
    set id | id in s.calls && !s.calls[id].Done?
  }

  /** The run reads a clock that never goes back, between the two instants. */
  ghost predicate Clocked(actions: seq<Action>, from: int, to: int) {
    && (forall i :: 0 <= i < |actions| && actions[i].Advance? ==> from <= actions[i].now <= to)
    && (forall i, j :: 0 <= i < j < |actions| && actions[i].Advance? && actions[j].Advance? ==>
          actions[i].now <= actions[j].now)
  }

  /** The first k actions. */
  function Prefix(actions: seq<Action>, k: nat): seq<Action>
    requires k <= |actions|
  {
    actions[..k]
  }

  /** There are never more than m calls in progress. */
  ghost predicate AtMost(cfg: Config, actions: seq<Action>, m: nat) {
    forall k: nat, s :: k <= |actions| && Reaches(cfg, Prefix(actions, k), s) ==> |InProgress(s)| <= m
  }

  lemma AtMostOfPrefix(cfg: Config, actions: seq<Action>, n: nat, m: nat)
    requires AtMost(cfg, actions, m) && n <= |actions|
    ensures AtMost(cfg, actions[..n], m)
  {
    forall k: nat, s | k <= n && Reaches(cfg, Prefix(actions[..n], k), s) ensures |InProgress(s)| <= m {
      assert Prefix(actions[..n], k) == Prefix(actions, k);
    }
  }

  lemma AtMostNow(cfg: Config, actions: seq<Action>, s: System, m: nat)
    requires Reaches(cfg, actions, s) && AtMost(cfg, actions, m)
    ensures |InProgress(s)| <= m
  {
    assert Prefix(actions, |actions|) == actions;
  }

  /** Moving one call changes who is in progress by that call only. */
  lemma ProgressUpdate(s: System, id: nat, pc: Pc, t: System)
    requires t.calls == s.calls[id := pc]
    ensures InProgress(t) == if pc.Done? then InProgress(s) - {id} else InProgress(s) + {id}
  {
  }

  /** The run goes on between the two instants, with at most m calls in progress. */
  ghost predicate GoesOn(cfg: Config, actions: seq<Action>, longer: seq<Action>, from: int, to: int, m: nat) {
    && actions <= longer && from <= to
    && (forall i :: |actions| <= i < |longer| && longer[i].Advance? ==> from <= longer[i].now <= to)
    && (forall i, j :: |actions| <= i < j < |longer| && longer[i].Advance? && longer[j].Advance? ==>
          longer[i].now <= longer[j].now)
    && (forall k: nat, s :: |actions| < k <= |longer| && Reaches(cfg, Prefix(longer, k), s) ==> |InProgress(s)| <= m)
  }

  lemma GoesOnFurther(cfg: Config, a: seq<Action>, b: seq<Action>, c: seq<Action>,
                      from: int, mid: int, onward: int, to: int, m: nat)
    requires GoesOn(cfg, a, b, from, mid, m) && GoesOn(cfg, b, c, onward, to, m) && mid <= onward
    ensures GoesOn(cfg, a, c, from, to, m)
  {
    assert forall i :: 0 <= i < |b| ==> c[i] == b[i];
    forall k: nat, s | |a| < k <= |c| && Reaches(cfg, Prefix(c, k), s) ensures |InProgress(s)| <= m {
      if k <= |b| {
        assert Prefix(c, k) == Prefix(b, k);
      }
    }
  }

  /** One action more. */
  lemma GoesOnByOne(cfg: Config, actions: seq<Action>, a: Action, s: System, from: int, to: int, m: nat)
    requires Reaches(cfg, actions + [a], s) && |InProgress(s)| <= m && from <= to
    requires a.Advance? ==> from <= a.now <= to
    ensures GoesOn(cfg, actions, actions + [a], from, to, m)
  {
    assert Prefix(actions + [a], |actions| + 1) == actions + [a];
  }

  /** The whole run is on a clock between the two instants, with at most m calls in progress. */
  ghost predicate Paced(cfg: Config, actions: seq<Action>, from: int, to: int, m: nat) {
    Clocked(actions, from, to) && AtMost(cfg, actions, m)
  }

  lemma PacedFurther(cfg: Config, actions: seq<Action>, longer: seq<Action>,
                     from: int, to: int, onward: int, end: int, m: nat)
    requires Paced(cfg, actions, from, to, m) && from <= to <= onward
    requires GoesOn(cfg, actions, longer, onward, end, m)
    ensures Paced(cfg, longer, from, end, m)
  {
    assert forall i :: 0 <= i < |actions| ==> longer[i] == actions[i];
    forall k: nat, s | k <= |longer| && Reaches(cfg, Prefix(longer, k), s) ensures |InProgress(s)| <= m {
      if k <= |actions| {
        assert Prefix(longer, k) == Prefix(actions, k);
      }
    }
  }

  lemma NothingPaced(cfg: Config, from: int, to: int, m: nat)
    ensures Paced(cfg, [], from, to, m)
  {
    forall k: nat, s | k <= 0 && Reaches(cfg, Prefix([], k), s) ensures |InProgress(s)| <= m {
      assert InProgress(START) == {};
    }
  }

  // ----- When things happened -----

  /** The last action of the run has logged an event. */
  ghost predicate Logs(cfg: Config, actions: seq<Action>) {
    actions != []
    && var before, after := Exec(cfg, actions[..|actions| - 1]), Exec(cfg, actions);
       before.Some? && after.Some? && |after.value.log| > |before.value.log|
  }

  /** The instants of the events of the log, in order. */
  ghost function Times(cfg: Config, actions: seq<Action>): seq<int> {
    if actions == [] then []
    else
      var last := actions[|actions| - 1];
      Times(cfg, actions[..|actions| - 1]) + if Logs(cfg, actions) && last.Advance? then [last.now] else []
  }

  lemma TimesNext(cfg: Config, actions: seq<Action>, before: System, s: System)
    requires actions != [] && Reaches(cfg, actions[..|actions| - 1], before) && Reaches(cfg, actions, s)
    ensures var last, times := actions[|actions| - 1], Times(cfg, actions[..|actions| - 1]);
            Times(cfg, actions) == if |s.log| > |before.log| && last.Advance? then times + [last.now] else times
  {
  }

  lemma {:induction false} TimesFit(cfg: Config, actions: seq<Action>, s: System)
    requires Reaches(cfg, actions, s)
    ensures |Times(cfg, actions)| == |s.log|
  {
    if actions != [] {
      TimesFit(cfg, actions[..|actions| - 1], Exec(cfg, actions[..|actions| - 1]).value);
    }
  }

  lemma {:induction false} TimesWithin(cfg: Config, actions: seq<Action>, from: int, to: int)
    requires Clocked(actions, from, to)
    ensures forall i :: 0 <= i < |Times(cfg, actions)| ==> from <= Times(cfg, actions)[i] <= to
  {
    if actions != [] {
      TimesWithin(cfg, actions[..|actions| - 1], from, to);
    }
  }

  // ----- What one expects -----

  predicate Opening(e: Event) {
    e.Moved? && e.to == Open
  }

  /** fn is never invoked within OpenTimeout after an opening. */
  ghost predicate OpenLasts(cfg: Config, log: seq<Event>, times: seq<int>) {
    && |times| == |log|
    && forall j, i :: 0 <= j < i < |log| && Opening(log[j]) && log[i].Called? ==> times[i] - times[j] >= cfg.openTimeout
  }

  /** When no call is in progress the gauge shows the state. */
  ghost predicate GaugeShows(s: System) {
    InProgress(s) == {} ==> s.shared.gauge == s.shared.state
  }

  /** The successes counted in an episode, n before the event. */
  function CountedAfter(n: nat, e: Event): nat {
    if e.Moved? && e.to == HalfOpen then 0
    else if e.Bumped? && e.counter == Successes then n + 1
    else n
  }

  /** The successes counted since the breaker last became HalfOpen. */
  function EpisodeSuccesses(log: seq<Event>): nat {
    if log == [] then 0 else CountedAfter(EpisodeSuccesses(log[..|log| - 1]), log[|log| - 1])
  }

  predicate Closing(e: Event) {
    e.Moved? && e.to == Closed
  }

  /** Every close is earned by SuccessThreshold successes of its own HalfOpen episode. */
  ghost predicate ClosesEarned(cfg: Config, log: seq<Event>) {
    forall i :: 0 <= i < |log| && Closing(log[i]) ==> EpisodeSuccesses(log[..i]) >= cfg.successThreshold
  }
}
