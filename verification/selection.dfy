/** Which carriers take part in a fan-out, and which one gets a hedge. */
module Selection {
  import opened Domain

  // ----- Eligibility -----

  datatype Carrier = Carrier(id: string, capabilities: seq<string>, priority: int)

  predicate CanServe(c: Carrier, lines: seq<string>) {
    exists i :: 0 <= i < |c.capabilities| && c.capabilities[i] in lines
  }

  /** The carriers that can serve some requested line and whose breaker was not seen Open.
      `open[i]` is what reading carrier i's breaker gave; false if it has none. */
  function EligibleOf(carriers: seq<Carrier>, open: seq<bool>, lines: seq<string>): seq<Carrier>
    requires |open| == |carriers|
  {
    if carriers == [] then []
    else
      var n := |carriers| - 1;
      EligibleOf(carriers[..n], open[..n], lines)
      + if !open[n] && CanServe(carriers[n], lines) then [carriers[n]] else []
  }

  method FilterEligible(carriers: seq<Carrier>, open: seq<bool>, lines: seq<string>) returns (eligible: seq<Carrier>)
    requires |open| == |carriers|
    ensures eligible == EligibleOf(carriers, open, lines)
  {
    eligible := [];
    for i := 0 to |carriers|
      invariant eligible == EligibleOf(carriers[..i], open[..i], lines)
    {
      var c := carriers[i];
      assert carriers[..i + 1][..i] == carriers[..i] && open[..i + 1][..i] == open[..i];
      if open[i] {
        continue;
      }
      var j := 0;
      var found := false;
      while j < |c.capabilities| && !found
        invariant 0 <= j <= |c.capabilities|
        invariant !found ==> forall k :: 0 <= k < j ==> c.capabilities[k] !in lines
        invariant found ==> CanServe(c, lines)
      {
        if c.capabilities[j] in lines {
          found := true;
        }
        j := j + 1;
      }
      if found {
        eligible := eligible + [c];
      }
    }
    assert carriers[..|carriers|] == carriers && open[..|carriers|] == open;
  }

  ghost predicate DistinctIds(carriers: seq<Carrier>) {
    forall i, j :: 0 <= i < j < |carriers| ==> carriers[i].id != carriers[j].id
  }

  /** The carrier is configured, was not seen Open, and has a capability among the lines. */
  ghost predicate Qualifies(carriers: seq<Carrier>, open: seq<bool>, lines: seq<string>, c: Carrier)
    requires |open| == |carriers|
  {
    exists i, k ::
      && 0 <= i < |carriers| && 0 <= k < |carriers[i].capabilities|
      && carriers[i] == c && !open[i] && carriers[i].capabilities[k] in lines
  }

  lemma QualifiesNext(carriers: seq<Carrier>, open: seq<bool>, lines: seq<string>, c: Carrier)
    requires |open| == |carriers| && carriers != []
    ensures var n := |carriers| - 1;
      Qualifies(carriers, open, lines, c) <==>
      Qualifies(carriers[..n], open[..n], lines, c) || (carriers[n] == c && !open[n] && CanServe(c, lines))
  {
    var n := |carriers| - 1;
    var shorter, readings := carriers[..n], open[..n];
    if Qualifies(shorter, readings, lines, c) {
      var i, k :| 0 <= i < n && 0 <= k < |shorter[i].capabilities| && shorter[i] == c && !readings[i]
                  && shorter[i].capabilities[k] in lines;
      assert carriers[i] == c && !open[i] && carriers[i].capabilities[k] in lines;
    }
    if i, k :| 0 <= i < n && 0 <= k < |carriers[i].capabilities| && carriers[i] == c && !open[i]
               && carriers[i].capabilities[k] in lines {
      assert shorter[i] == c && !readings[i] && shorter[i].capabilities[k] in lines;
    }
    if carriers[n] == c && CanServe(c, lines) {
      var k :| 0 <= k < |c.capabilities| && c.capabilities[k] in lines;
      assert carriers[n].capabilities[k] in lines;
    }
  }

  /** A carrier is eligible exactly if it is configured, not seen Open, and can serve a
      requested line. */
  lemma {:induction false} EligibleExactly(carriers: seq<Carrier>, open: seq<bool>, lines: seq<string>, c: Carrier)
    requires |open| == |carriers|
    ensures c in EligibleOf(carriers, open, lines) <==> Qualifies(carriers, open, lines, c)
  {
    if carriers != [] {
      QualifiesNext(carriers, open, lines, c);
      EligibleExactly(carriers[..|carriers| - 1], open[..|carriers| - 1], lines, c);
    }
  }

  /** Filtering introduces no duplicates. */
  lemma {:induction false} EligibleDistinct(carriers: seq<Carrier>, open: seq<bool>, lines: seq<string>)
    requires |open| == |carriers| && DistinctIds(carriers)
    ensures DistinctIds(EligibleOf(carriers, open, lines))
  {
    if carriers != [] {
      var n := |carriers| - 1;
      EligibleDistinct(carriers[..n], open[..n], lines);
      var before := EligibleOf(carriers[..n], open[..n], lines);
      forall i | 0 <= i < |before| ensures before[i].id != carriers[n].id {
        EligibleExactly(carriers[..n], open[..n], lines, before[i]);
      }
    }
  }

  /** The list keeps the order of the carriers: `at` tells where each comes from. */
  ghost predicate InOrder<T, U>(out: seq<T>, from: seq<U>, at: seq<nat>, same: (T, U) -> bool) {
    && |at| == |out|
    && (forall i :: 0 <= i < |out| ==> at[i] < |from| && same(out[i], from[at[i]]))
    && (forall i, j :: 0 <= i < j < |at| ==> at[i] < at[j])
  }

  lemma {:induction false} EligibleInOrder(carriers: seq<Carrier>, open: seq<bool>, lines: seq<string>)
    returns (at: seq<nat>)
    requires |open| == |carriers|
    ensures InOrder(EligibleOf(carriers, open, lines), carriers, at, (c: Carrier, d: Carrier) => c == d)
  {
    at := [];
    if carriers != [] {
      var n := |carriers| - 1;
      at := EligibleInOrder(carriers[..n], open[..n], lines);
      if !open[n] && CanServe(carriers[n], lines) {
        at := at + [n];
      }
    }
  }

  // ----- Hedge candidates -----

  /** A carrier that may be sent a hedge, with the estimate read when the fan-out began. */
  datatype HedgeCarrier = HedgeCarrier(id: string, p95: real, priority: int)

  predicate Allowed(exclude: string, carriers: seq<HedgeCarrier>, open: seq<bool>, i: int)
    requires |open| == |carriers|
  {
    0 <= i < |carriers| && carriers[i].id != exclude && !open[i]
  }

  predicate Better(a: HedgeCarrier, b: HedgeCarrier) {
    a.p95 < b.p95 || (a.p95 == b.p95 && a.priority < b.priority)
  }

  /** The candidate found among the first k carriers. */
  function SelectAmong(exclude: string, carriers: seq<HedgeCarrier>, open: seq<bool>, k: nat): (best: Option<nat>)
    requires |open| == |carriers| && k <= |carriers|
    ensures best.Some? ==> best.value < k
  {
    if k == 0 then None
    else
      var before := SelectAmong(exclude, carriers, open, k - 1);
      if !Allowed(exclude, carriers, open, k - 1) then before
      else if before.None? || Better(carriers[k - 1], carriers[before.value]) then Some(k - 1)
      else before
  }

  function Select(exclude: string, carriers: seq<HedgeCarrier>, open: seq<bool>): Option<nat>
    requires |open| == |carriers|
  {
    SelectAmong(exclude, carriers, open, |carriers|)
  }

  /** The best allowed candidate, by estimate and then priority, and the first of the best in
      the list. */
  ghost predicate IsBest(exclude: string, carriers: seq<HedgeCarrier>, open: seq<bool>, k: nat, i: nat)
    requires |open| == |carriers| && k <= |carriers|
  {
    && i < k && carriers[i].id != exclude && !open[i]
    && (forall j :: 0 <= j < k && carriers[j].id != exclude && !open[j] ==>
          carriers[i].p95 < carriers[j].p95
          || (carriers[i].p95 == carriers[j].p95 && carriers[i].priority <= carriers[j].priority))
    && (forall j :: 0 <= j < i && carriers[j].id != exclude && !open[j] ==>
          carriers[i].p95 < carriers[j].p95
          || (carriers[i].p95 == carriers[j].p95 && carriers[i].priority < carriers[j].priority))
  }

  lemma {:induction false} SelectedAmongIsBest(exclude: string, carriers: seq<HedgeCarrier>, open: seq<bool>, k: nat)
    requires |open| == |carriers| && k <= |carriers|
    ensures match SelectAmong(exclude, carriers, open, k)
            case None => forall j :: 0 <= j < k ==> carriers[j].id == exclude || open[j]
            case Some(i) => IsBest(exclude, carriers, open, k, i)
  {
    if k > 0 {
      SelectedAmongIsBest(exclude, carriers, open, k - 1);
    }
  }

  /** The selected carrier is exactly the allowed one that is minimal by estimate, then
      priority, then position; there is none exactly if nothing is allowed. */
  lemma SelectedIsBest(exclude: string, carriers: seq<HedgeCarrier>, open: seq<bool>)
    requires |open| == |carriers|
    ensures forall i: nat ::
              Select(exclude, carriers, open) == Some(i) <==> IsBest(exclude, carriers, open, |carriers|, i)
    ensures Select(exclude, carriers, open) == None <==>
            forall j :: 0 <= j < |carriers| ==> carriers[j].id == exclude || open[j]
  {
    SelectedAmongIsBest(exclude, carriers, open, |carriers|);
  }

  /** The selection loop. `open[i]` is what reading carrier i's breaker gives when the loop
      gets there; the readings need not come from one instant. */
  method SelectHedgeCandidate(exclude: string, carriers: seq<HedgeCarrier>, open: seq<bool>)
    returns (best: Option<nat>)
    requires |open| == |carriers|
    ensures best == Select(exclude, carriers, open)
  {
    best := None;
    for i := 0 to |carriers|
      invariant best == SelectAmong(exclude, carriers, open, i)
    {
      if carriers[i].id == exclude || open[i] {
        continue;
      }
      if best.None? {
        best := Some(i);
      } else if carriers[i].p95 < carriers[best.value].p95 {
        best := Some(i);
      } else if carriers[i].p95 == carriers[best.value].p95 && carriers[i].priority < carriers[best.value].priority {
        best := Some(i);
      }
    }
  }
}
