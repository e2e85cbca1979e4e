/** Overlapping calls of a compare-and-swap retry loop over freshly allocated immutable
    states, one step per atomic operation. The update is any pure function of the old
    state and the call's argument. */
module SwapLoop {
  import opened Domain

  type Update<!S, !X> = (S, X) -> S

  /** The state after the arguments, in order. */
  function FoldWith<S, X>(update: Update<S, X>, s: S, xs: seq<X>): S {
    if xs == [] then s
    else update(FoldWith(update, s, xs[..|xs| - 1]), xs[|xs| - 1])
  }

  lemma FoldWithNext<S, X>(update: Update<S, X>, s: S, xs: seq<X>, x: X)
    ensures FoldWith(update, s, xs + [x]) == update(FoldWith(update, s, xs), x)
  {
    assert (xs + [x])[..|xs|] == xs;
  }

  /** A pointer is the position of its state in the allocation order. */
  type Pointer = nat

  datatype Pc<S> =
    | Load
    | Allocate(seen: Pointer)
    | Swap(seen: Pointer, next: Pointer)
    | Report(shown: S)
    | Done

  /** `began` and `version` remember how many records had been committed when the call
      began, and when it last loaded the pointer. */
  datatype Call<S, X> = Call(argument: X, pc: Pc<S>, retries: nat, began: nat, version: nat)

  /** `order` lists the calls in the order of their commits, `observed` their latencies. */
  datatype System<S, X> = System(
    heap: seq<S>, current: Pointer, calls: map<nat, Call<S, X>>,
    order: seq<nat>, observed: seq<X>, gauge: Option<S>)

  datatype Action<X> = Begin(id: nat, argument: X) | Advance(id: nat)

  function Start<S, X>(seed: S): System<S, X> {
    System([seed], 0, map[], [], [], None)
  }

  predicate Enabled<S, X>(s: System<S, X>, a: Action<X>) {
    match a
    case Begin(id, _) => id !in s.calls
    case Advance(id) => id in s.calls && !s.calls[id].pc.Done?
  }

  /** Whether pointers and pcs make sense, so that every operation is defined. */
  predicate WellFormed<S, X>(s: System<S, X>) {
    && s.current < |s.heap|
    && forall id :: id in s.calls ==>
         match s.calls[id].pc
         case Allocate(seen) => seen < |s.heap|
         case Swap(seen, next) => seen < |s.heap| && next < |s.heap|
         case _ => true
  }

  function Apply<S, X>(update: Update<S, X>, s: System<S, X>, a: Action<X>): System<S, X>
    requires WellFormed(s) && Enabled(s, a)
  {
    match a
    case Begin(id, x) => s.(calls := s.calls[id := Call(x, Load, 0, |s.order|, |s.order|)])
    case Advance(id) =>
      var c := s.calls[id];
      match c.pc
      case Load =>
        s.(calls := s.calls[id := c.(pc := Allocate(s.current), version := |s.order|)])
      case Allocate(seen) =>
        s.(heap := s.heap + [update(s.heap[seen], c.argument)],
           calls := s.calls[id := c.(pc := Swap(seen, |s.heap|))])
      case Swap(seen, next) =>
        if s.current == seen then
          s.(current := next, order := s.order + [id], observed := s.observed + [c.argument],
             calls := s.calls[id := c.(pc := Report(s.heap[next]))])
        else
          s.(calls := s.calls[id := c.(pc := Load, retries := c.retries + 1)])
      case Report(p) =>
        s.(gauge := Some(p), calls := s.calls[id := c.(pc := Pc.Done)])
  }

  predicate Committed<S, X>(c: Call<S, X>) {
    c.pc.Report? || c.pc.Done?
  }

  // ----- The invariant -----

  /** The estimate after the first v commits. */
  ghost function Estimate<S, X>(update: Update<S, X>, seed: S, s: System<S, X>, v: nat): S
    requires v <= |s.observed|
  {
    FoldWith(update, seed, s.observed[..v])
  }

  /** A call between its load and its swap saw the estimate of its version, which is the
      current one exactly if the pointer has not moved since. */
  ghost predicate SeenSound<S, X>(update: Update<S, X>, seed: S, s: System<S, X>, c: Call<S, X>, seen: Pointer) {
    && seen < |s.heap| && c.version <= |s.observed|
    && s.heap[seen] == Estimate(update, seed, s, c.version)
    && (seen == s.current <==> c.version == |s.observed|)
  }

  ghost predicate CallSound<S, X>(update: Update<S, X>, seed: S, s: System<S, X>, c: Call<S, X>) {
    && c.began <= c.version <= |s.observed| && c.retries <= |s.observed|
    && match c.pc
       case Load => true
       case Allocate(seen) => SeenSound(update, seed, s, c, seen) && c.retries <= c.version
       case Swap(seen, next) =>
         && SeenSound(update, seed, s, c, seen) && c.retries <= c.version
         && next < |s.heap| && next != s.current && s.heap[next] == update(s.heap[seen], c.argument)
       case Report(p) => Shown(update, seed, s, p) && c.retries < |s.observed|
       case Done => c.retries < |s.observed|
  }

  /** The value is the estimate right after some commit. */
  ghost predicate Shown<S, X>(update: Update<S, X>, seed: S, s: System<S, X>, p: S) {
    exists v: nat :: 0 < v <= |s.observed| && p == Estimate(update, seed, s, v)
  }

  /** A freshly allocated pointer is known to its own call only. */
  ghost predicate Private<S, X>(s: System<S, X>) {
    forall a, b :: a in s.calls && b in s.calls && a != b && s.calls[a].pc.Swap? ==>
      match s.calls[b].pc
      case Allocate(seen) => seen != s.calls[a].pc.next
      case Swap(seen, next) => seen != s.calls[a].pc.next && next != s.calls[a].pc.next
      case _ => true
  }

  /** The commit order lists exactly the committed calls, each once, with its argument and
      not before it began. */
  ghost predicate OrderSound<S, X>(s: System<S, X>) {
    && |s.order| == |s.observed|
    && (forall i, j :: 0 <= i < j < |s.order| ==> s.order[i] != s.order[j])
    && (forall i :: 0 <= i < |s.order| ==>
          && s.order[i] in s.calls && Committed(s.calls[s.order[i]])
          && s.calls[s.order[i]].argument == s.observed[i]
          && s.calls[s.order[i]].began <= i)
    && (forall id :: id in s.calls && Committed(s.calls[id]) ==> id in s.order)
  }

  ghost predicate Invariant<S, X>(update: Update<S, X>, seed: S, s: System<S, X>) {
    && WellFormed(s) && OrderSound(s) && Private(s)
    && s.heap[s.current] == FoldWith(update, seed, s.observed)
    && (forall id :: id in s.calls ==> CallSound(update, seed, s, s.calls[id]))
    && (s.gauge.Some? ==> Shown(update, seed, s, s.gauge.value))
  }

  // ----- One step -----

  /** Moving one call, when nothing else changes. */
  lemma OrderKept<S, X>(s: System<S, X>, id: nat, c: Call<S, X>, s': System<S, X>)
    requires OrderSound(s) && s'.calls == s.calls[id := c] && s'.order == s.order && s'.observed == s.observed
    requires if id in s.calls then
               && Committed(c) == Committed(s.calls[id])
               && c.argument == s.calls[id].argument && c.began == s.calls[id].began
             else !Committed(c)
    ensures OrderSound(s')
  {
  }

  lemma ShownLater<S, X>(update: Update<S, X>, seed: S, s: System<S, X>, s': System<S, X>, p: S)
    requires s.observed <= s'.observed && Shown(update, seed, s, p)
    ensures Shown(update, seed, s', p)
  {
    var v: nat :| 0 < v <= |s.observed| && p == Estimate(update, seed, s, v);
    assert s'.observed[..v] == s.observed[..v];
    assert p == Estimate(update, seed, s', v);
  }

  /** A call that does not move stays sound while no record is committed. */
  lemma CallKept<S, X>(update: Update<S, X>, seed: S, s: System<S, X>, s': System<S, X>, c: Call<S, X>)
    requires CallSound(update, seed, s, c)
    requires s.heap <= s'.heap && s'.current == s.current && s'.observed == s.observed
    ensures CallSound(update, seed, s', c)
  {
    if c.pc.Report? {
      ShownLater(update, seed, s, s', c.pc.shown);
    }
  }

  /** What a step that commits nothing has to show: the moved call is sound, and a pointer
      it has seen or allocated is no other call's private pointer. */
  lemma QuietStepKeeps<S, X>(update: Update<S, X>, seed: S, s: System<S, X>, s': System<S, X>, id: nat, c: Call<S, X>)
    requires Invariant(update, seed, s) && s'.calls == s.calls[id := c]
    requires s.heap <= s'.heap && s'.current == s.current && s'.order == s.order && s'.observed == s.observed
    requires if id in s.calls then
               && Committed(c) == Committed(s.calls[id])
               && c.argument == s.calls[id].argument && c.began == s.calls[id].began
             else !Committed(c)
    requires CallSound(update, seed, s', c) && Private(s')
    requires s'.gauge == s.gauge || (s'.gauge.Some? && Shown(update, seed, s', s'.gauge.value))
    ensures Invariant(update, seed, s')
  {
    OrderKept(s, id, c, s');
    forall a | a in s'.calls ensures CallSound(update, seed, s', s'.calls[a]) {
      if a != id {
        CallKept(update, seed, s, s', s.calls[a]);
      }
    }
    if s'.gauge == s.gauge && s.gauge.Some? {
      ShownLater(update, seed, s, s', s.gauge.value);
    }
  }

  lemma BeginKeeps<S, X>(update: Update<S, X>, seed: S, s: System<S, X>, id: nat, x: X)
    requires Invariant(update, seed, s) && id !in s.calls
    ensures Invariant(update, seed, Apply(update, s, Begin(id, x)))
  {
    var s' := Apply(update, s, Begin(id, x));
    QuietStepKeeps(update, seed, s, s', id, s'.calls[id]);
  }

  lemma LoadKeeps<S, X>(update: Update<S, X>, seed: S, s: System<S, X>, id: nat)
    requires Invariant(update, seed, s) && id in s.calls && s.calls[id].pc.Load?
    ensures Invariant(update, seed, Apply(update, s, Advance(id)))
  {
    var s' := Apply(update, s, Advance(id));
    assert CallSound(update, seed, s, s.calls[id]);
    assert s.observed[..|s.observed|] == s.observed;
    forall a | a in s.calls && s.calls[a].pc.Swap? ensures s.calls[a].pc.next != s.current {
      assert CallSound(update, seed, s, s.calls[a]);
    }
    QuietStepKeeps(update, seed, s, s', id, s'.calls[id]);
  }

  lemma AllocateKeeps<S, X>(update: Update<S, X>, seed: S, s: System<S, X>, id: nat)
    requires Invariant(update, seed, s) && id in s.calls && s.calls[id].pc.Allocate?
    ensures Invariant(update, seed, Apply(update, s, Advance(id)))
  {
    var s' := Apply(update, s, Advance(id));
    assert CallSound(update, seed, s, s.calls[id]);
    QuietStepKeeps(update, seed, s, s', id, s'.calls[id]);
  }

  /** What a successful swap changes. */
  ghost predicate Commits<S, X>(s: System<S, X>, id: nat, s': System<S, X>)
    requires id in s.calls
  {
    && s.calls[id].pc.Swap? && s.calls[id].pc.seen == s.current && s.calls[id].pc.next < |s.heap|
    && s'.heap == s.heap && s'.current == s.calls[id].pc.next && s'.gauge == s.gauge
    && s'.order == s.order + [id] && s'.observed == s.observed + [s.calls[id].argument]
    && s'.calls == s.calls[id := s.calls[id].(pc := Report(s.heap[s'.current]))]
  }

  /** A successful swap: the call's own allocation becomes the estimate of one more record. */
  lemma CommitKeeps<S, X>(update: Update<S, X>, seed: S, s: System<S, X>, id: nat)
    requires Invariant(update, seed, s) && id in s.calls
    requires s.calls[id].pc.Swap? && s.calls[id].pc.seen == s.current
    ensures Invariant(update, seed, Apply(update, s, Advance(id)))
  {
    var s' := Apply(update, s, Advance(id));
    CommitKeepsShape(s, id, s');
    CommitKeepsOrder(s, id, s');
    CommitKeepsEstimate(update, seed, s, id, s');
    forall a | a in s'.calls ensures CallSound(update, seed, s', s'.calls[a]) {
      if a != id {
        CommitKeepsCall(update, seed, s, id, s', a);
      }
    }
    if s.gauge.Some? {
      ShownLater(update, seed, s, s', s.gauge.value);
    }
  }

  lemma CommitKeepsShape<S, X>(s: System<S, X>, id: nat, s': System<S, X>)
    requires WellFormed(s) && Private(s) && id in s.calls && Commits(s, id, s')
    ensures WellFormed(s') && Private(s')
  {
  }

  lemma CommitKeepsOrder<S, X>(s: System<S, X>, id: nat, s': System<S, X>)
    requires OrderSound(s) && id in s.calls && Commits(s, id, s') && s.calls[id].began <= |s.observed|
    ensures OrderSound(s')
  {
    assert !Committed(s.calls[id]) && id !in s.order;
  }

  /** The mover's allocation holds the new estimate, and so the mover is sound. */
  lemma CommitKeepsEstimate<S, X>(update: Update<S, X>, seed: S, s: System<S, X>, id: nat, s': System<S, X>)
    requires id in s.calls && Commits(s, id, s') && CallSound(update, seed, s, s.calls[id])
    requires s.current < |s.heap| && s.heap[s.current] == FoldWith(update, seed, s.observed)
    ensures s'.heap[s'.current] == FoldWith(update, seed, s'.observed)
    ensures CallSound(update, seed, s', s'.calls[id])
  {
    FoldWithNext(update, seed, s.observed, s.calls[id].argument);
    assert s'.observed[..|s'.observed|] == s'.observed;
    assert Estimate(update, seed, s', |s'.observed|) == s'.heap[s'.current];
  }

  lemma CommitKeepsCall<S, X>(
    update: Update<S, X>, seed: S, s: System<S, X>, id: nat, s': System<S, X>, a: nat)
    requires id in s.calls && a in s.calls && a != id && Commits(s, id, s') && Private(s)
    requires CallSound(update, seed, s, s.calls[id]) && CallSound(update, seed, s, s.calls[a])
    ensures CallSound(update, seed, s', s.calls[a])
  {
    var c := s.calls[a];
    assert s'.observed[..c.version] == s.observed[..c.version];
    if c.pc.Report? {
      ShownLater(update, seed, s, s', c.pc.shown);
    }
  }

  /** A failed swap: some other call has committed since the load. */
  lemma RetryKeeps<S, X>(update: Update<S, X>, seed: S, s: System<S, X>, id: nat)
    requires Invariant(update, seed, s) && id in s.calls
    requires s.calls[id].pc.Swap? && s.calls[id].pc.seen != s.current
    ensures Invariant(update, seed, Apply(update, s, Advance(id)))
    ensures s.calls[id].version < |s.order|
  {
    var s' := Apply(update, s, Advance(id));
    assert CallSound(update, seed, s, s.calls[id]);
    QuietStepKeeps(update, seed, s, s', id, s'.calls[id]);
  }

  lemma ReportKeeps<S, X>(update: Update<S, X>, seed: S, s: System<S, X>, id: nat)
    requires Invariant(update, seed, s) && id in s.calls && s.calls[id].pc.Report?
    ensures Invariant(update, seed, Apply(update, s, Advance(id)))
  {
    var s' := Apply(update, s, Advance(id));
    assert CallSound(update, seed, s, s.calls[id]);
    ShownLater(update, seed, s, s', s.calls[id].pc.shown);
    QuietStepKeeps(update, seed, s, s', id, s'.calls[id]);
  }

  lemma StepKeeps<S, X>(update: Update<S, X>, seed: S, s: System<S, X>, a: Action<X>)
    requires Invariant(update, seed, s) && Enabled(s, a)
    ensures Invariant(update, seed, Apply(update, s, a))
  {
    match a
    case Begin(id, x) => BeginKeeps(update, seed, s, id, x);
    case Advance(id) =>
      match s.calls[id].pc
      case Load => LoadKeeps(update, seed, s, id);
      case Allocate(_) => AllocateKeeps(update, seed, s, id);
      case Swap(seen, _) =>
        if seen == s.current { CommitKeeps(update, seed, s, id); } else { RetryKeeps(update, seed, s, id); }
      case Report(_) => ReportKeeps(update, seed, s, id);
  }

  // ----- Every interleaving -----

  function Exec<S, X>(update: Update<S, X>, seed: S, actions: seq<Action<X>>): Option<System<S, X>> {
    if actions == [] then Some(Start(seed))
    else
      var last := actions[|actions| - 1];
      match Exec(update, seed, actions[..|actions| - 1])
      case None => None
      case Some(s) => if WellFormed(s) && Enabled(s, last) then Some(Apply(update, s, last)) else None
  }

  ghost predicate Reaches<S, X>(update: Update<S, X>, seed: S, actions: seq<Action<X>>, s: System<S, X>) {
    Exec(update, seed, actions) == Some(s)
  }

  lemma {:induction false} InvariantAlways<S, X>(
    update: Update<S, X>, seed: S, actions: seq<Action<X>>, s: System<S, X>)
    requires Reaches(update, seed, actions, s)
    ensures Invariant(update, seed, s)
  {
    if actions != [] {
      var last := actions[|actions| - 1];
      var before := Exec(update, seed, actions[..|actions| - 1]).value;
      InvariantAlways(update, seed, actions[..|actions| - 1], before);
      StepKeeps(update, seed, before, last);
    }
  }

  /** No update is lost: the shared state is the fold of the committed observations in commit
      order, counts them, and every finished call is in that order exactly once, at a place
      no earlier than the commits that preceded its beginning. */
  lemma Linearizable<S, X>(update: Update<S, X>, seed: S, actions: seq<Action<X>>, s: System<S, X>)
    requires Reaches(update, seed, actions, s)
    ensures s.current < |s.heap| && s.heap[s.current] == FoldWith(update, seed, s.observed)
    ensures |s.order| == |s.observed|
    ensures forall i, j :: 0 <= i < j < |s.order| ==> s.order[i] != s.order[j]
    ensures forall i :: 0 <= i < |s.order| ==>
              s.order[i] in s.calls && s.calls[s.order[i]].argument == s.observed[i]
              && s.calls[s.order[i]].began <= i
    ensures forall id :: id in s.calls && s.calls[id].pc.Done? ==> id in s.order
    ensures s.gauge.Some? ==> Shown(update, seed, s, s.gauge.value)
  {
    InvariantAlways(update, seed, actions, s);
  }

  /** Commits are never undone or reordered. */
  lemma {:induction false} OrderOnlyGrows<S, X>(
    update: Update<S, X>, seed: S, actions: seq<Action<X>>, n: nat, s: System<S, X>, s': System<S, X>)
    requires n <= |actions| && Reaches(update, seed, actions[..n], s) && Reaches(update, seed, actions, s')
    ensures s.order <= s'.order && s.observed <= s'.observed
  {
    if n < |actions| {
      var before := Exec(update, seed, actions[..|actions| - 1]).value;
      assert actions[..|actions| - 1][..n] == actions[..n];
      OrderOnlyGrows(update, seed, actions[..|actions| - 1], n, s, before);
    } else {
      assert actions[..n] == actions;
    }
  }

  /** Commit order respects real time: a call that has finished before another begins is
      committed before it. */
  lemma RealTimeOrder<S, X>(
    update: Update<S, X>, seed: S, actions: seq<Action<X>>, n: nat, s: System<S, X>, s': System<S, X>, a: nat,
    b: nat, j: nat)
    requires n <= |actions| && Reaches(update, seed, actions[..n], s) && Reaches(update, seed, actions, s')
    requires a in s.calls && s.calls[a].pc.Done? && b !in s.calls
    requires j < |s'.order| && s'.order[j] == b
    ensures exists i :: 0 <= i < j && s'.order[i] == a
  {
    InvariantAlways(update, seed, actions[..n], s);
    InvariantAlways(update, seed, actions, s');
    OrderOnlyGrows(update, seed, actions, n, s, s');
    BeganLater(update, seed, actions, n, s, s', b);
    var i :| 0 <= i < |s.order| && s.order[i] == a;
    assert s'.order[i] == a;
  }

  lemma {:induction false} BeganLater<S, X>(
    update: Update<S, X>, seed: S, actions: seq<Action<X>>, n: nat, s: System<S, X>, s': System<S, X>, b: nat)
    requires n <= |actions| && Reaches(update, seed, actions[..n], s) && Reaches(update, seed, actions, s')
    ensures b !in s.calls && b in s'.calls ==> |s.order| <= s'.calls[b].began
  {
    if n == |actions| {
      assert actions[..n] == actions;
    } else {
      var prefix := actions[..|actions| - 1];
      var before := Exec(update, seed, prefix).value;
      assert prefix[..n] == actions[..n];
      if b in before.calls {
        BeganLater(update, seed, prefix, n, s, before, b);
      } else {
        OrderOnlyGrows(update, seed, prefix, n, s, before);
      }
    }
  }

  /** A failed swap means that another call committed after this call's load. */
  lemma FailedSwapMeansProgress<S, X>(update: Update<S, X>, seed: S, actions: seq<Action<X>>, s: System<S, X>, id: nat)
    requires Reaches(update, seed, actions, s) && id in s.calls
    requires s.calls[id].pc.Swap? && s.calls[id].pc.seen != s.current
    ensures s.calls[id].version < |s.order| && s.order[s.calls[id].version] != id
  {
    InvariantAlways(update, seed, actions, s);
    RetryKeeps(update, seed, s, id);
  }

  /** After it the call starts over, and nothing else has changed. */
  lemma FailedSwapRetries<S, X>(update: Update<S, X>, s: System<S, X>, id: nat)
    requires WellFormed(s) && id in s.calls && s.calls[id].pc.Swap? && s.calls[id].pc.seen != s.current
    ensures Apply(update, s, Advance(id)) ==
            s.(calls := s.calls[id := s.calls[id].(pc := Load, retries := s.calls[id].retries + 1)])
  {
  }

  /** The value is the state right after the call's own commit. */
  ghost predicate ShownBy<S, X>(update: Update<S, X>, seed: S, s: System<S, X>, id: nat, p: S) {
    exists v: nat :: 0 < v <= |s.order| && v <= |s.observed| && s.order[v - 1] == id
                     && p == FoldWith(update, seed, s.observed[..v])
  }

  ghost predicate OwnShown<S, X>(update: Update<S, X>, seed: S, s: System<S, X>) {
    forall id :: id in s.calls && s.calls[id].pc.Report? ==> ShownBy(update, seed, s, id, s.calls[id].pc.shown)
  }

  lemma OwnShownLater<S, X>(update: Update<S, X>, seed: S, s: System<S, X>, s': System<S, X>, id: nat, p: S)
    requires s.order <= s'.order && s.observed <= s'.observed && ShownBy(update, seed, s, id, p)
    ensures ShownBy(update, seed, s', id, p)
  {
    var v: nat :| 0 < v <= |s.order| && v <= |s.observed| && s.order[v - 1] == id
                  && p == FoldWith(update, seed, s.observed[..v]);
    assert s'.observed[..v] == s.observed[..v] && s'.order[v - 1] == id;
  }

  /** A call comes to report by committing, with the state that it has just committed. */
  lemma ReportBegins<S, X>(update: Update<S, X>, s: System<S, X>, a: Action<X>, id: nat)
    requires WellFormed(s) && Enabled(s, a)
    ensures var s' := Apply(update, s, a);
      && s.order <= s'.order && s.observed <= s'.observed
      && (id in s'.calls && s'.calls[id].pc.Report? && !(id in s.calls && s.calls[id] == s'.calls[id]) ==>
            && s'.order == s.order + [id] && s'.current < |s'.heap| && s'.calls[id].pc.shown == s'.heap[s'.current])
  {
  }

  lemma OwnShownStep<S, X>(update: Update<S, X>, seed: S, s: System<S, X>, s': System<S, X>, a: Action<X>)
    requires WellFormed(s) && OwnShown(update, seed, s) && Enabled(s, a) && s' == Apply(update, s, a)
    requires |s'.order| == |s'.observed|
    requires s'.current < |s'.heap| && s'.heap[s'.current] == FoldWith(update, seed, s'.observed)
    ensures OwnShown(update, seed, s')
  {
    forall id | id in s'.calls && s'.calls[id].pc.Report?
      ensures ShownBy(update, seed, s', id, s'.calls[id].pc.shown)
    {
      ReportBegins(update, s, a, id);
      if id in s.calls && s.calls[id] == s'.calls[id] {
        OwnShownLater(update, seed, s, s', id, s.calls[id].pc.shown);
      } else {
        assert s'.observed[..|s'.observed|] == s'.observed;
        assert s'.order[|s'.order| - 1] == id;
      }
    }
  }

  lemma {:induction false} OwnShownAlways<S, X>(
    update: Update<S, X>, seed: S, actions: seq<Action<X>>, s: System<S, X>)
    requires Reaches(update, seed, actions, s)
    ensures OwnShown(update, seed, s)
  {
    if actions != [] {
      var last := actions[|actions| - 1];
      var before := Exec(update, seed, actions[..|actions| - 1]).value;
      OwnShownAlways(update, seed, actions[..|actions| - 1], before);
      Linearizable(update, seed, actions, s);
      OwnShownStep(update, seed, before, s, last);
    }
  }

  /** Every call that finishes writes to the gauge the state right after its own commit. */
  lemma ReportsItsOwn<S, X>(
    update: Update<S, X>, seed: S, actions: seq<Action<X>>, s: System<S, X>, id: nat) returns (v: nat)
    requires Reaches(update, seed, actions, s) && id in s.calls && s.calls[id].pc.Report?
    ensures WellFormed(s) && Apply(update, s, Advance(id)).calls == s.calls[id := s.calls[id].(pc := Pc.Done)]
    ensures 0 < v <= |s.order| && v <= |s.observed| && s.order[v - 1] == id
    ensures Apply(update, s, Advance(id)).gauge == Some(FoldWith(update, seed, s.observed[..v]))
  {
    InvariantAlways(update, seed, actions, s);
    OwnShownAlways(update, seed, actions, s);
    v :| 0 < v <= |s.order| && v <= |s.observed| && s.order[v - 1] == id
         && s.calls[id].pc.shown == FoldWith(update, seed, s.observed[..v]);
  }

  lemma {:induction false} DistinctFit(xs: seq<nat>, within: set<nat>)
    requires forall i, j :: 0 <= i < j < |xs| ==> xs[i] != xs[j]
    requires forall i :: 0 <= i < |xs| ==> xs[i] in within
    ensures |xs| <= |within|
  {
    if xs != [] {
      var last := xs[|xs| - 1];
      DistinctFit(xs[..|xs| - 1], within - {last});
    }
  }

  /** In a run of N calls each call retries at most N - 1 times. */
  lemma RetriesBounded<S, X>(update: Update<S, X>, seed: S, actions: seq<Action<X>>, s: System<S, X>, id: nat)
    requires Reaches(update, seed, actions, s) && id in s.calls
    ensures s.calls[id].retries <= |s.calls| - 1
  {
    InvariantAlways(update, seed, actions, s);
    assert CallSound(update, seed, s, s.calls[id]);
    if Committed(s.calls[id]) {
      DistinctFit(s.order, s.calls.Keys);
    } else {
      DistinctFit(s.order, s.calls.Keys - {id});
    }
  }
}

/** The tracker's Record, whose update is the moving average. */
module EmaInterleaved {
  import opened Ema
  import opened SwapLoop

  function Recording(alpha: real): Update<State, real> {
    (s: State, x: real) => Observe(alpha, s, x)
  }

  lemma {:induction false} FoldsAgree(alpha: real, seed: State, xs: seq<real>)
    ensures FoldWith(Recording(alpha), seed, xs) == Fold(alpha, seed, xs)
  {
    if xs != [] {
      FoldsAgree(alpha, seed, xs[..|xs| - 1]);
    }
  }

  /** After any interleaving of Record calls the shared estimate is the moving average of
      the committed latencies in commit order, and `observations` is their number. */
  lemma RecordLosesNothing(alpha: real, seed: State, actions: seq<Action<real>>, s: System<State, real>)
    requires seed.observations == 0 && Reaches(Recording(alpha), seed, actions, s)
    ensures s.current < |s.heap| && s.heap[s.current] == Fold(alpha, seed, s.observed)
    ensures s.heap[s.current].observations == |s.order|
  {
    Linearizable(Recording(alpha), seed, actions, s);
    FoldsAgree(alpha, seed, s.observed);
    FoldCounts(alpha, seed, s.observed);
  }
}
