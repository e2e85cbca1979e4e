/** Fan-in: the deduplicating collector and the final sort. */
module Collector {
  import opened Domain

  // ----- The order of the result -----

  /** Lexicographic order, as cmp.Compare orders strings. */
  predicate StringBefore(a: string, b: string) {
    if b == [] then false
    else if a == [] then true
    else if a[0] != b[0] then a[0] < b[0]
    else StringBefore(a[1..], b[1..])
  }

  lemma {:induction false} StringOrderTotal(a: string, b: string)
    ensures !(StringBefore(a, b) && StringBefore(b, a))
    ensures a != b ==> StringBefore(a, b) || StringBefore(b, a)
  {
    if a != [] && b != [] && a[0] == b[0] {
      StringOrderTotal(a[1..], b[1..]);
      assert a == [a[0]] + a[1..] && b == [b[0]] + b[1..];
    }
  }

  lemma {:induction false} StringOrderTransitive(a: string, b: string, c: string)
    requires StringBefore(a, b) && StringBefore(b, c)
    ensures StringBefore(a, c)
  {
    if a != [] && a[0] == b[0] == c[0] {
      StringOrderTransitive(a[1..], b[1..], c[1..]);
    }
  }

  /** a comes first at the first place where they differ, or is a proper beginning of b. */
  ghost predicate LexicallyBefore(a: string, b: string) {
    || (exists k :: 0 <= k < |a| && k < |b| && a[..k] == b[..k] && a[k] < b[k])
    || (|a| < |b| && b[..|a|] == a)
  }

  lemma {:induction false} StringBeforeExactly(a: string, b: string)
    ensures StringBefore(a, b) <==> LexicallyBefore(a, b)
  {
    if a != [] && b != [] {
      StringBeforeExactly(a[1..], b[1..]);
      LexicallyNext(a, b);
    }
  }

  lemma LexicallyNext(a: string, b: string)
    requires a != [] && b != []
    ensures LexicallyBefore(a, b) <==> a[0] < b[0] || (a[0] == b[0] && LexicallyBefore(a[1..], b[1..]))
  {
    if a[0] < b[0] {
      assert a[..0] == b[..0];
    }
    if a[0] == b[0] && LexicallyBefore(a[1..], b[1..]) {
      LexicallyLonger(a, b);
    }
    if LexicallyBefore(a, b) {
      LexicallyShorter(a, b);
    }
  }

  lemma LexicallyLonger(a: string, b: string)
    requires a != [] && b != [] && a[0] == b[0] && LexicallyBefore(a[1..], b[1..])
    ensures LexicallyBefore(a, b)
  {
    if k :| 0 <= k < |a| - 1 && k < |b| - 1 && a[1..][..k] == b[1..][..k] && a[1..][k] < b[1..][k] {
      assert a[..k + 1] == [a[0]] + a[1..][..k] && b[..k + 1] == [b[0]] + b[1..][..k];
      assert a[k + 1] < b[k + 1];
    } else {
      assert b[..|a|] == [b[0]] + b[1..][..|a| - 1] && a == [a[0]] + a[1..];
    }
  }

  lemma LexicallyShorter(a: string, b: string)
    requires a != [] && b != [] && LexicallyBefore(a, b)
    ensures a[0] < b[0] || (a[0] == b[0] && LexicallyBefore(a[1..], b[1..]))
  {
    if k :| 0 < k < |a| && k < |b| && a[..k] == b[..k] && a[k] < b[k] {
      assert a[..k][0] == b[..k][0];
      assert a[1..][..k - 1] == a[..k][1..] && b[1..][..k - 1] == b[..k][1..];
      assert a[1..][k - 1] < b[1..][k - 1];
    }
    if |a| < |b| && b[..|a|] == a {
      assert b[..|a|][0] == a[0];
      assert b[1..][..|a| - 1] == b[..|a|][1..];
    }
  }

  /** By premium, then by carrier. */
  predicate Before(a: Quote, b: Quote) {
    a.premium.amount < b.premium.amount
    || (a.premium.amount == b.premium.amount && StringBefore(a.carrierId, b.carrierId))
  }

  lemma OrderTotal(a: Quote, b: Quote)
    ensures !(Before(a, b) && Before(b, a))
    ensures a.carrierId != b.carrierId ==> Before(a, b) || Before(b, a)
  {
    StringOrderTotal(a.carrierId, b.carrierId);
  }

  /** Not being ordered the other way round is transitive too. */
  lemma NotAfterTransitive(a: Quote, b: Quote, c: Quote)
    requires !Before(b, a) && !Before(c, b)
    ensures !Before(c, a)
  {
    StringOrderTotal(a.carrierId, b.carrierId);
    StringOrderTotal(b.carrierId, c.carrierId);
    StringOrderTotal(a.carrierId, c.carrierId);
    if Before(c, a) {
      if StringBefore(a.carrierId, b.carrierId) && StringBefore(b.carrierId, c.carrierId) {
        StringOrderTransitive(a.carrierId, b.carrierId, c.carrierId);
      }
    }
  }

  // ----- First arrivals -----

  predicate Arrived(quotes: seq<Quote>, carrier: string) {
    exists i :: 0 <= i < |quotes| && quotes[i].carrierId == carrier
  }

  /** The first quote of each carrier, in order of arrival. */
  function FirstArrivals(arrivals: seq<Quote>): seq<Quote> {
    if arrivals == [] then []
    else
      var rest, last := arrivals[..|arrivals| - 1], arrivals[|arrivals| - 1];
      if Arrived(rest, last.carrierId) then FirstArrivals(rest) else FirstArrivals(rest) + [last]
  }

  ghost predicate IsFirst(arrivals: seq<Quote>, i: nat)
    requires i < |arrivals|
  {
    forall j :: 0 <= j < i ==> arrivals[j].carrierId != arrivals[i].carrierId
  }

  /** The quote arrived, and its carrier had not arrived before. */
  ghost predicate IsFirstArrival(arrivals: seq<Quote>, q: Quote) {
    exists i: nat :: i < |arrivals| && IsFirst(arrivals, i) && arrivals[i] == q
  }

  ghost predicate DistinctCarriers(quotes: seq<Quote>) {
    forall i, j :: 0 <= i < j < |quotes| ==> quotes[i].carrierId != quotes[j].carrierId
  }

  /** The kept quotes have distinct carriers and are exactly the first arrivals. */
  lemma {:induction false} KeepsExactlyFirstArrivals(arrivals: seq<Quote>)
    ensures DistinctCarriers(FirstArrivals(arrivals))
    ensures forall q :: q in FirstArrivals(arrivals) <==> IsFirstArrival(arrivals, q)
    ensures forall c :: Arrived(FirstArrivals(arrivals), c) <==> Arrived(arrivals, c)
  {
    if arrivals != [] {
      var n := |arrivals| - 1;
      var rest, last := arrivals[..n], arrivals[n];
      KeepsExactlyFirstArrivals(rest);
      ArrivedNext(rest, last);
      assert rest + [last] == arrivals;
      if !Arrived(rest, last.carrierId) {
        ArrivedNext(FirstArrivals(rest), last);
      }
      forall q ensures q in FirstArrivals(arrivals) <==> IsFirstArrival(arrivals, q) {
        FirstArrivalNext(rest, last, q);
      }
    }
  }

  lemma ArrivedNext(quotes: seq<Quote>, q: Quote)
    ensures forall c :: Arrived(quotes + [q], c) <==> Arrived(quotes, c) || q.carrierId == c
  {
    forall c ensures Arrived(quotes + [q], c) <==> Arrived(quotes, c) || q.carrierId == c {
      if Arrived(quotes, c) {
        var i :| 0 <= i < |quotes| && quotes[i].carrierId == c;
        assert (quotes + [q])[i].carrierId == c;
      }
      assert (quotes + [q])[|quotes|] == q;
    }
  }

  lemma FirstArrivalNext(rest: seq<Quote>, last: Quote, q: Quote)
    ensures IsFirstArrival(rest + [last], q) <==>
            IsFirstArrival(rest, q) || (q == last && !Arrived(rest, last.carrierId))
  {
    var all := rest + [last];
    if IsFirstArrival(rest, q) {
      var i: nat :| i < |rest| && IsFirst(rest, i) && rest[i] == q;
      assert IsFirst(all, i) && all[i] == q;
    }
    if q == last && !Arrived(rest, last.carrierId) {
      assert IsFirst(all, |rest|) && all[|rest|] == q;
    }
    if IsFirstArrival(all, q) {
      var i: nat :| i < |all| && IsFirst(all, i) && all[i] == q;
      if i < |rest| {
        assert IsFirst(rest, i) && rest[i] == q by {
          assert forall j :: 0 <= j < i ==> all[j] == rest[j];
        }
      } else {
        assert forall j :: 0 <= j < |rest| ==> all[j] == rest[j];
      }
    }
  }

  /** The collector loop: `seen` decides which arrivals are kept. */
  method Collect(arrivals: seq<Quote>) returns (collected: seq<Quote>, discarded: nat)
    ensures collected == FirstArrivals(arrivals)
    ensures |collected| + discarded == |arrivals|
  {
    collected, discarded := [], 0;
    var seen: set<string> := {};
    for i := 0 to |arrivals|
      invariant collected == FirstArrivals(arrivals[..i])
      invariant forall c :: c in seen <==> Arrived(arrivals[..i], c)
      invariant |collected| + discarded == i
    {
      var result := arrivals[i];
      assert arrivals[..i + 1] == arrivals[..i] + [result];
      assert arrivals[..i + 1][..i] == arrivals[..i];
      ArrivedNext(arrivals[..i], result);
      if result.carrierId in seen {
        discarded := discarded + 1;
      } else {
        seen := seen + {result.carrierId};
        collected := collected + [result];
      }
    }
    assert arrivals[..|arrivals|] == arrivals;
  }

  // ----- Sorting -----

  ghost predicate Ordered(quotes: seq<Quote>) {
    forall i, j :: 0 <= i < j < |quotes| ==> !Before(quotes[j], quotes[i])
  }

  /** What any comparison sort delivers. */
  ghost predicate IsSortOf(out: seq<Quote>, quotes: seq<Quote>) {
    multiset(out) == multiset(quotes) && Ordered(out)
  }

  function Insert(q: Quote, quotes: seq<Quote>): seq<Quote> {
    if quotes == [] then [q]
    else if Before(quotes[0], q) then [quotes[0]] + Insert(q, quotes[1..])
    else [q] + quotes
  }

  function Sort(quotes: seq<Quote>): seq<Quote> {
    if quotes == [] then [] else Insert(quotes[0], Sort(quotes[1..]))
  }

  /** A quote that does not come after the first goes to the front. */
  lemma FrontSorts(q: Quote, quotes: seq<Quote>)
    requires quotes != [] && Ordered(quotes) && !Before(quotes[0], q)
    ensures Ordered([q] + quotes)
  {
    forall x | x in quotes ensures !Before(x, q) {
      if x != quotes[0] {
        NotAfterTransitive(q, quotes[0], x);
      }
    }
  }

  /** The first quote stays first if it comes before what has been inserted. */
  lemma FirstStays(first: Quote, rest: seq<Quote>, out: seq<Quote>, q: Quote)
    requires Ordered([first] + rest) && Ordered(out) && Before(first, q)
    requires multiset(out) == multiset(rest) + multiset{q}
    ensures Ordered([first] + out)
  {
    forall x | x in out ensures !Before(x, first) {
      assert x in multiset(out);
      if x == q {
        OrderTotal(first, q);
      } else {
        assert x in multiset(rest);
        var k :| 0 <= k < |rest| && rest[k] == x;
        assert ([first] + rest)[0] == first && ([first] + rest)[k + 1] == x;
      }
    }
  }

  lemma {:induction false} InsertSorts(q: Quote, quotes: seq<Quote>)
    requires Ordered(quotes)
    ensures multiset(Insert(q, quotes)) == multiset(quotes) + multiset{q}
    ensures Ordered(Insert(q, quotes))
  {
    if quotes != [] {
      assert quotes == [quotes[0]] + quotes[1..];
      if Before(quotes[0], q) {
        InsertSorts(q, quotes[1..]);
        FirstStays(quotes[0], quotes[1..], Insert(q, quotes[1..]), q);
      } else {
        FrontSorts(q, quotes);
      }
    }
  }

  lemma {:induction false} SortSorts(quotes: seq<Quote>)
    ensures IsSortOf(Sort(quotes), quotes)
  {
    if quotes != [] {
      assert quotes == [quotes[0]] + quotes[1..];
      SortSorts(quotes[1..]);
      InsertSorts(quotes[0], Sort(quotes[1..]));
    }
  }

  /** No two different quotes of the bag have the same carrier. */
  ghost predicate OnePerCarrier(bag: multiset<Quote>) {
    forall p, q :: p in bag && q in bag && p.carrierId == q.carrierId ==> p == q
  }

  /** When carriers are distinct, every sorting algorithm gives the same slice. */
  lemma {:induction false} SortIsUnique(a: seq<Quote>, b: seq<Quote>)
    requires multiset(a) == multiset(b) && OnePerCarrier(multiset(a)) && Ordered(a) && Ordered(b)
    ensures a == b
  {
    SameLength(a, b);
    if a != [] {
      SameTails(a, b);
      SortIsUnique(a[1..], b[1..]);
      assert a == [a[0]] + a[1..] && b == [b[0]] + b[1..];
    }
  }

  lemma SameTails(a: seq<Quote>, b: seq<Quote>)
    requires multiset(a) == multiset(b) && OnePerCarrier(multiset(a)) && Ordered(a) && Ordered(b) && a != [] && b != []
    ensures a[0] == b[0] && multiset(a[1..]) == multiset(b[1..])
    ensures OnePerCarrier(multiset(a[1..])) && Ordered(a[1..]) && Ordered(b[1..])
  {
    SameLength(a, b);
    SameFirst(a, b);
    TailBag(a);
    TailBag(b);
  }

  lemma SameLength(a: seq<Quote>, b: seq<Quote>)
    requires multiset(a) == multiset(b)
    ensures |a| == |b|
    ensures a != [] ==> a[0] in b && b[0] in a
  {
    assert |a| == |multiset(a)| && |b| == |multiset(b)|;
    if a != [] {
      assert a[0] in multiset(b) && b[0] in multiset(a);
    }
  }

  lemma TailBag(quotes: seq<Quote>)
    requires quotes != []
    ensures multiset(quotes[1..]) == multiset(quotes) - multiset{quotes[0]}
    ensures OnePerCarrier(multiset(quotes)) ==> OnePerCarrier(multiset(quotes[1..]))
    ensures Ordered(quotes) ==> Ordered(quotes[1..])
  {
    assert quotes == [quotes[0]] + quotes[1..];
    assert forall q :: q in multiset(quotes[1..]) ==> q in multiset(quotes);
  }

  lemma SameFirst(a: seq<Quote>, b: seq<Quote>)
    requires a != [] && b != [] && a[0] in b && b[0] in a
    requires OnePerCarrier(multiset(a))
    requires Ordered(a) && Ordered(b)
    ensures a[0] == b[0]
  {
    OrderTotal(a[0], b[0]);
  }

  lemma DistinctIsOnePerCarrier(quotes: seq<Quote>)
    requires DistinctCarriers(quotes)
    ensures OnePerCarrier(multiset(quotes))
  {
  }

  /** Two fan-outs with the same first arrivals return the same slice, in whatever order the
      quotes arrived and whatever algorithm sorts them. */
  lemma SliceIsDetermined(arrivals: seq<Quote>, arrivals': seq<Quote>, out: seq<Quote>, out': seq<Quote>)
    requires multiset(FirstArrivals(arrivals)) == multiset(FirstArrivals(arrivals'))
    requires IsSortOf(out, FirstArrivals(arrivals)) && IsSortOf(out', FirstArrivals(arrivals'))
    ensures out == out'
  {
    KeepsExactlyFirstArrivals(arrivals);
    DistinctIsOnePerCarrier(FirstArrivals(arrivals));
    SortIsUnique(out, out');
  }
}
