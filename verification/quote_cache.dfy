/** The quote cache: a table keyed by request and carrier, with insert-if-absent, reads
    that skip expired rows, and a sweep. */
module QuoteCache {
  import opened Domain
  import opened Collector
  import opened Tally
  import FanOut
  import FanOutTheorems

  type Key = (string, string)

  datatype Row = Row(premiumCents: int, currency: string, expiresAt: int, isHedged: bool, latencyMs: int)

  type Table = map<Key, Row>

  // ----- What is stored of a quote -----

  function RowOf(q: Quote): Row {
    Row(q.premium.amount, if q.premium.currency == "" then "USD" else q.premium.currency,
        q.expiresAt, q.isHedged, Quotient(q.latency, MILLISECOND))
  }

  function QuoteOf(request: string, carrier: string, row: Row): Quote {
    Quote(request, carrier, Money(row.premiumCents, row.currency), row.expiresAt, "",
          row.latencyMs * MILLISECOND, row.isHedged)
  }

  /** What comes back of a quote that was stored under the request. */
  function Normalised(request: string, q: Quote): Quote {
    QuoteOf(request, q.carrierId, RowOf(q))
  }

  /** What is kept of a saved quote, field by field: the request becomes the key, the carrier's
      reference is dropped, an empty currency becomes USD, and the latency loses what is less
      than a millisecond, toward zero; carrier, premium, expiry and hedge mark are kept. */
  ghost predicate KeptOf(found: Quote, saved: Quote, request: string) {
    && found.requestId == request && found.carrierRef == "" && found.carrierId == saved.carrierId
    && found.premium.amount == saved.premium.amount
    && found.premium.currency == (if saved.premium.currency == "" then "USD" else saved.premium.currency)
    && found.expiresAt == saved.expiresAt && found.isHedged == saved.isHedged
    && found.latency % 1_000_000 == 0
    && (0 <= saved.latency ==> found.latency <= saved.latency < found.latency + 1_000_000)
    && (saved.latency < 0 ==> found.latency - 1_000_000 < saved.latency <= found.latency)
  }

  /** What comes back of a quote is exactly what is kept of it. */
  lemma NormalisedExactly(request: string, found: Quote, saved: Quote)
    ensures found == Normalised(request, saved) <==> KeptOf(found, saved, request)
  {
    var ms := Quotient(saved.latency, MILLISECOND);
    assert Normalised(request, saved).latency == ms * 1_000_000;
    assert KeptOf(Normalised(request, saved), saved, request);
    if KeptOf(found, saved, request) {
      SameMultiple(found.latency, ms);
      assert found.premium == Normalised(request, saved).premium;
    }
  }

  lemma SameMultiple(latency: int, ms: int)
    requires latency % 1_000_000 == 0 && -1_000_000 < latency - ms * 1_000_000 < 1_000_000
    ensures latency == ms * 1_000_000
  {
  }

  /** Storing what came back changes nothing more. */
  lemma NormalisingTwice(request: string, q: Quote)
    ensures Normalised(request, Normalised(request, q)) == Normalised(request, q)
  {
    var ms := Quotient(q.latency, MILLISECOND);
    assert Quotient(ms * MILLISECOND, MILLISECOND) == ms;
  }

  // ----- The operations -----

  /** INSERT ... ON CONFLICT DO NOTHING. */
  function InsertRow(t: Table, key: Key, row: Row): Table {
    if key in t then t else t[key := row]
  }

  function SaveAll(t: Table, request: string, quotes: seq<Quote>): Table {
    if quotes == [] then t
    else
      var last := quotes[|quotes| - 1];
      InsertRow(SaveAll(t, request, quotes[..|quotes| - 1]), (request, last.carrierId), RowOf(last))
  }

  function Sweep(t: Table, now: int): Table {
    map key | key in t && t[key].expiresAt > now :: t[key]
  }

  predicate Live(t: Table, request: string, now: int, carrier: string) {
    (request, carrier) in t && t[(request, carrier)].expiresAt > now
  }

  /** Live rows of the request, each at most once, by premium. */
  ghost predicate Gathered(t: Table, request: string, now: int, out: seq<Quote>) {
    && DistinctCarriers(out)
    && (forall i, j :: 0 <= i < j < |out| ==> out[i].premium.amount <= out[j].premium.amount)
    && (forall i :: 0 <= i < |out| ==>
          Live(t, request, now, out[i].carrierId)
          && out[i] == QuoteOf(request, out[i].carrierId, t[(request, out[i].carrierId)]))
  }

  /** A possible answer of FindByRequestID: all the live rows of the request; rows with equal
      premiums may come in any order. */
  ghost predicate Answers(t: Table, request: string, now: int, out: seq<Quote>) {
    Gathered(t, request, now, out) && forall c :: Live(t, request, now, c) ==> Arrived(out, c)
  }

  class Repository {
    var rows: Table

    constructor ()
      ensures rows == map[]
    {
      rows := map[];
    }

    method Save(request: string, quotes: seq<Quote>)
      modifies this
      ensures rows == SaveAll(old(rows), request, quotes)
    {
      for i := 0 to |quotes|
        invariant rows == SaveAll(old(rows), request, quotes[..i])
      {
        assert quotes[..i + 1][..i] == quotes[..i];
        var key := (request, quotes[i].carrierId);
        if key !in rows {
          rows := rows[key := RowOf(quotes[i])];
        }
      }
      assert quotes[..|quotes|] == quotes;
    }

    /** Collects the live rows, cheapest first. */
    method FindByRequestID(request: string, now: int) returns (out: seq<Quote>, ok: bool)
      ensures Answers(rows, request, now, out)
      ensures forall q :: q in out ==>
                && (request, q.carrierId) in rows && q.requestId == request && q.carrierRef == ""
                && var row := rows[(request, q.carrierId)];
                   && row.expiresAt > now && q.expiresAt == row.expiresAt && q.isHedged == row.isHedged
                   && q.premium == Money(row.premiumCents, row.currency) && q.latency == row.latencyMs * 1_000_000
      ensures forall c :: (request, c) in rows && rows[(request, c)].expiresAt > now ==> Arrived(out, c)
      ensures ok <==> exists c :: (request, c) in rows && rows[(request, c)].expiresAt > now
    {
      out := [];
      var rest := set key | key in rows.Keys && key.0 == request && rows[key].expiresAt > now :: key.1;
      RestAtFirst(rows, request, now, rest);
      while rest != {}
        invariant Remaining(rows, request, now, out, rest)
        decreases rest
      {
        CheapestExists(rows, request, rest);
        var c :| c in rest && Cheapest(rows, request, rest, c);
        RemainingNext(rows, request, now, out, rest, c);
        out := out + [QuoteOf(request, c, rows[(request, c)])];
        rest := rest - {c};
      }
      ok := |out| > 0;
      if ok {
        assert Live(rows, request, now, out[0].carrierId);
      }
      forall c | (request, c) in rows && rows[(request, c)].expiresAt > now ensures Arrived(out, c) {
        assert Live(rows, request, now, c);
      }
    }

    method DeleteExpired(now: int) returns (count: nat)
      modifies this
      ensures rows == Sweep(old(rows), now)
      ensures forall key :: key in rows <==> key in old(rows) && old(rows)[key].expiresAt > now
      ensures forall key :: key in rows ==> rows[key] == old(rows)[key]
      ensures count + |rows| == |old(rows)|
    {
      var kept := Sweep(rows, now);
      KeptFit(rows, now);
      count := |rows| - |kept|;
      rows := kept;
    }
  }

  lemma KeptFit(t: Table, now: int)
    ensures |Sweep(t, now)| <= |t|
  {
    SubsetSmaller(Sweep(t, now).Keys, t.Keys);
  }

  /** The live rows of the request are gathered but for those of the carriers in `rest`, which
      are no cheaper. */
  ghost predicate Remaining(t: Table, request: string, now: int, out: seq<Quote>, rest: set<string>) {
    && Gathered(t, request, now, out)
    && (forall c :: c in rest ==> Live(t, request, now, c) && !Arrived(out, c))
    && (forall c :: Live(t, request, now, c) ==> c in rest || Arrived(out, c))
    && (forall i, c :: 0 <= i < |out| && c in rest ==> out[i].premium.amount <= t[(request, c)].premiumCents)
  }

  lemma RestAtFirst(t: Table, request: string, now: int, rest: set<string>)
    requires rest == set key | key in t.Keys && key.0 == request && t[key].expiresAt > now :: key.1
    ensures Remaining(t, request, now, [], rest)
  {
    forall c: string ensures c in rest <==> Live(t, request, now, c) {
      if Live(t, request, now, c) {
        assert (request, c) in t.Keys;
      }
    }
  }

  lemma RemainingNext(t: Table, request: string, now: int, out: seq<Quote>, rest: set<string>, c: string)
    requires Remaining(t, request, now, out, rest) && c in rest && Cheapest(t, request, rest, c)
    ensures Remaining(t, request, now, out + [QuoteOf(request, c, t[(request, c)])], rest - {c})
  {
    ArrivedNext(out, QuoteOf(request, c, t[(request, c)]));
    GatheredNext(t, request, now, out, c);
  }

  lemma GatheredNext(t: Table, request: string, now: int, out: seq<Quote>, c: string)
    requires Gathered(t, request, now, out) && Live(t, request, now, c) && !Arrived(out, c)
    requires forall i :: 0 <= i < |out| ==> out[i].premium.amount <= t[(request, c)].premiumCents
    ensures Gathered(t, request, now, out + [QuoteOf(request, c, t[(request, c)])])
  {
  }

  predicate Cheapest(t: Table, request: string, rest: set<string>, c: string)
    requires forall d :: d in rest ==> (request, d) in t
  {
    c in rest && forall d :: d in rest ==> t[(request, c)].premiumCents <= t[(request, d)].premiumCents
  }

  lemma {:induction false} CheapestExists(t: Table, request: string, rest: set<string>)
    requires rest != {} && forall d :: d in rest ==> (request, d) in t
    ensures exists c :: Cheapest(t, request, rest, c)
  {
    var x :| x in rest;
    var others := rest - {x};
    assert forall d :: d in rest ==> d == x || d in others;
    if others == {} {
      assert Cheapest(t, request, rest, x);
    } else {
      CheapestExists(t, request, others);
      var c :| Cheapest(t, request, others, c);
      assert Cheapest(t, request, rest, if t[(request, x)].premiumCents <= t[(request, c)].premiumCents then x else c);
    }
  }

  // ----- What Save does -----

  /** A stored row always wins over a saved quote, and among the saved quotes the first of
      its carrier wins; other requests are untouched. */
  lemma {:induction false} SaveExactly(t: Table, request: string, quotes: seq<Quote>, key: Key)
    ensures key in t ==> key in SaveAll(t, request, quotes) && SaveAll(t, request, quotes)[key] == t[key]
    ensures key !in t ==> (key in SaveAll(t, request, quotes) <==> key.0 == request && Arrived(quotes, key.1))
    ensures key !in t && key in SaveAll(t, request, quotes) ==>
              exists i: nat :: i < |quotes| && IsFirst(quotes, i) && quotes[i].carrierId == key.1
                               && SaveAll(t, request, quotes)[key] == RowOf(quotes[i])
  {
    if quotes != [] {
      var n := |quotes| - 1;
      var rest, last := quotes[..n], quotes[n];
      SaveExactly(t, request, rest, key);
      assert rest + [last] == quotes;
      ArrivedNext(rest, last);
      if key !in t && key in SaveAll(t, request, rest) {
        var i: nat :| i < |rest| && IsFirst(rest, i) && rest[i].carrierId == key.1
                      && SaveAll(t, request, rest)[key] == RowOf(rest[i]);
        assert IsFirst(quotes, i) && quotes[i] == rest[i];
      } else if key == (request, last.carrierId) {
        assert key !in t ==> IsFirst(quotes, n);
      }
    }
  }

  /** Saving the same results again changes nothing. */
  lemma SaveIsIdempotent(t: Table, request: string, quotes: seq<Quote>)
    ensures SaveAll(SaveAll(t, request, quotes), request, quotes) == SaveAll(t, request, quotes)
  {
    var once := SaveAll(t, request, quotes);
    var twice := SaveAll(once, request, quotes);
    forall key ensures key in twice <==> key in once {
      SaveExactly(t, request, quotes, key);
      SaveExactly(once, request, quotes, key);
    }
    forall key | key in once ensures twice[key] == once[key] {
      SaveExactly(once, request, quotes, key);
    }
  }

  /** The place of the first quote of the carrier of quote i. */
  function FirstOf(quotes: seq<Quote>, i: nat): (k: nat)
    requires i < |quotes|
    ensures k <= i && quotes[k].carrierId == quotes[i].carrierId && IsFirst(quotes, k)
  {
    if quotes[0].carrierId == quotes[i].carrierId then 0
    else
      assert forall k :: 1 <= k < |quotes| ==> quotes[k] == quotes[1..][k - 1];
      FirstOf(quotes[1..], i - 1) + 1
  }

  /** The row under the key of quote i after the quotes have been saved. */
  function RowAfter(t: Table, request: string, quotes: seq<Quote>, i: nat): Row
    requires i < |quotes|
  {
    var key := (request, quotes[i].carrierId);
    if key in t then t[key] else RowOf(quotes[FirstOf(quotes, i)])
  }

  /** A saved quote is found afterwards exactly if it has not expired, and what is stored of it
      is the row that was there before, or else that of its carrier's first quote. */
  lemma SavedIsFoundExactly(t: Table, request: string, quotes: seq<Quote>, i: nat, now: int, out: seq<Quote>)
    requires i < |quotes|
    requires Answers(SaveAll(t, request, quotes), request, now, out)
    ensures Normalised(request, quotes[i]) in out <==>
            quotes[i].expiresAt > now && RowAfter(t, request, quotes, i) == RowOf(quotes[i])
  {
    var carrier := quotes[i].carrierId;
    SaveExactly(t, request, quotes, (request, carrier));
    assert Arrived(quotes, carrier);
    FirstIsUnique(quotes, FirstOf(quotes, i));
    FoundExactly(SaveAll(t, request, quotes), request, now, out, carrier, RowOf(quotes[i]));
  }

  lemma FirstIsUnique(quotes: seq<Quote>, i: nat)
    requires i < |quotes| && IsFirst(quotes, i)
    ensures forall j: nat ::
              j < |quotes| && IsFirst(quotes, j) && quotes[j].carrierId == quotes[i].carrierId ==> j == i
  {
  }

  /** A row is found exactly if it is stored and has not expired. */
  lemma FoundExactly(t: Table, request: string, now: int, out: seq<Quote>, carrier: string, row: Row)
    requires Answers(t, request, now, out)
    ensures QuoteOf(request, carrier, row) in out <==>
            row.expiresAt > now && (request, carrier) in t && t[(request, carrier)] == row
  {
    var q := QuoteOf(request, carrier, row);
    if q in out {
      var j :| 0 <= j < |out| && out[j] == q;
      SameRow(request, carrier, t[(request, carrier)], row);
    }
    if row.expiresAt > now && (request, carrier) in t && t[(request, carrier)] == row {
      assert Live(t, request, now, carrier);
      var j :| 0 <= j < |out| && out[j].carrierId == carrier;
      assert out[j] == q;
    }
  }

  lemma SameRow(request: string, carrier: string, a: Row, b: Row)
    requires QuoteOf(request, carrier, a) == QuoteOf(request, carrier, b)
    ensures a == b
  {
  }

  /** An expired row that has not been swept blocks its key: the new quote is not found. */
  lemma ExpiredRowBlocks(t: Table, request: string, quotes: seq<Quote>, carrier: string, now: int, out: seq<Quote>)
    requires (request, carrier) in t && t[(request, carrier)].expiresAt <= now
    requires Answers(SaveAll(t, request, quotes), request, now, out)
    ensures !Arrived(out, carrier)
  {
    SaveExactly(t, request, quotes, (request, carrier));
  }

  /** Round trip: for a request with no stored rows, a find after saving deduplicated results
      returns exactly the unexpired ones, normalised, each once and by premium. */
  lemma RoundTrip(t: Table, request: string, quotes: seq<Quote>, now: int, out: seq<Quote>)
    requires forall c :: (request, c) !in t
    requires DistinctCarriers(quotes)
    requires Answers(SaveAll(t, request, quotes), request, now, out)
    ensures forall q :: q in out <==>
              exists i :: 0 <= i < |quotes| && quotes[i].expiresAt > now && KeptOf(q, quotes[i], request)
    ensures DistinctCarriers(out)
    ensures forall i, j :: 0 <= i < j < |out| ==> out[i].premium.amount <= out[j].premium.amount
  {
    var t' := SaveAll(t, request, quotes);
    forall i: nat | i < |quotes| && quotes[i].expiresAt > now ensures Normalised(request, quotes[i]) in out {
      FirstIsUnique(quotes, i);
      SavedIsFoundExactly(t, request, quotes, i, now, out);
    }
    forall q | q in out
      ensures exists i :: 0 <= i < |quotes| && quotes[i].expiresAt > now && KeptOf(q, quotes[i], request)
    {
      var j :| 0 <= j < |out| && out[j] == q;
      SaveExactly(t, request, quotes, (request, q.carrierId));
      var i: nat :| i < |quotes| && IsFirst(quotes, i) && quotes[i].carrierId == q.carrierId
                    && t'[(request, q.carrierId)] == RowOf(quotes[i]);
      NormalisedExactly(request, q, quotes[i]);
    }
    forall q, i | 0 <= i < |quotes| && quotes[i].expiresAt > now && KeptOf(q, quotes[i], request) ensures q in out {
      NormalisedExactly(request, q, quotes[i]);
    }
  }

  /** What has been served from the cache is served unchanged from then on: saving an answer
      for a request without rows, in this or another repository, and finding it again at the
      same instant gives the same quotes. */
  lemma AnswersAreFixedPoints(t: Table, request: string, quotes: seq<Quote>, now: int, out: seq<Quote>,
                              t': Table, out': seq<Quote>)
    requires forall c :: (request, c) !in t && (request, c) !in t'
    requires DistinctCarriers(quotes)
    requires Answers(SaveAll(t, request, quotes), request, now, out)
    requires Answers(SaveAll(t', request, out), request, now, out')
    ensures forall q :: q in out' <==> q in out
  {
    RoundTrip(t, request, quotes, now, out);
    RoundTrip(t', request, out, now, out');
    forall q | q in out ensures q.expiresAt > now && Normalised(request, q) == q {
      var i :| 0 <= i < |quotes| && quotes[i].expiresAt > now && KeptOf(q, quotes[i], request);
      NormalisedExactly(request, q, quotes[i]);
      NormalisingTwice(request, quotes[i]);
    }
    forall q ensures q in out' <==> q in out {
      if q in out {
        NormalisedExactly(request, q, q);
      }
      if q in out' {
        var i :| 0 <= i < |out| && out[i].expiresAt > now && KeptOf(q, out[i], request);
        NormalisedExactly(request, q, out[i]);
      }
    }
  }

  // ----- Runs -----

  datatype Op = SaveOp(request: string, quotes: seq<Quote>) | SweepOp(at: int)

  function Step(t: Table, op: Op): Table {
    match op
    case SaveOp(request, quotes) => SaveAll(t, request, quotes)
    case SweepOp(at) => Sweep(t, at)
  }

  function Run(t: Table, ops: seq<Op>): Table {
    if ops == [] then t else Step(Run(t, ops[..|ops| - 1]), ops[|ops| - 1])
  }

  /** No operation of the run happens after `now`. */
  ghost predicate Until(ops: seq<Op>, now: int) {
    forall i :: 0 <= i < |ops| && ops[i].SweepOp? ==> ops[i].at <= now
  }

  lemma {:induction false} RowSurvives(t: Table, ops: seq<Op>, key: Key, now: int)
    requires key in t && t[key].expiresAt > now && Until(ops, now)
    ensures key in Run(t, ops) && Run(t, ops)[key] == t[key]
  {
    if ops != [] {
      var n := |ops| - 1;
      RowSurvives(t, ops[..n], key, now);
      if ops[n].SaveOp? {
        SaveExactly(Run(t, ops[..n]), ops[n].request, ops[n].quotes, key);
      }
    }
  }

  /** Once a find has returned a quote, every later find before its expiry returns it
      unchanged, whatever saves and sweeps come between. */
  lemma AnswersAreStable(t: Table, ops: seq<Op>, request: string, first: int, out: seq<Quote>,
                         now: int, out': seq<Quote>, q: Quote)
    requires Answers(t, request, first, out) && q in out
    requires first <= now < q.expiresAt && Until(ops, now)
    requires Answers(Run(t, ops), request, now, out')
    ensures q in out'
  {
    var i :| 0 <= i < |out| && out[i] == q;
    RowSurvives(t, ops, (request, q.carrierId), now);
    assert Live(Run(t, ops), request, now, q.carrierId);
    var j :| 0 <= j < |out'| && out'[j].carrierId == q.carrierId;
    assert out'[j] == q;
  }

  lemma {:induction false} SweepsKeepLive(t: Table, ops: seq<Op>, request: string, now: int, c: string)
    requires Until(ops, now) && forall i :: 0 <= i < |ops| ==> ops[i].SweepOp?
    ensures Live(Run(t, ops), request, now, c) <==> Live(t, request, now, c)
    ensures Live(t, request, now, c) ==> Run(t, ops)[(request, c)] == t[(request, c)]
  {
    if ops != [] {
      SweepsKeepLive(t, ops[..|ops| - 1], request, now, c);
    }
  }

  /** Sweeps with no save after them are unobservable: the possible answers are the same. */
  lemma {:induction false} SweepsAreUnobservable(t: Table, ops: seq<Op>, request: string, now: int, out: seq<Quote>)
    requires Until(ops, now) && forall i :: 0 <= i < |ops| ==> ops[i].SweepOp?
    ensures Answers(Run(t, ops), request, now, out) <==> Answers(t, request, now, out)
  {
    forall c: string
      ensures Live(Run(t, ops), request, now, c) <==> Live(t, request, now, c)
      ensures Live(t, request, now, c) ==> Run(t, ops)[(request, c)] == t[(request, c)]
    {
      SweepsKeepLive(t, ops, request, now, c);
    }
  }

  // ----- The cache step of GetQuotes -----

  /** What a fan-out can return: nothing if no carrier is eligible, or the result of a run. */
  ghost predicate FannedOut(results: seq<Quote>) {
    || results == []
    || exists cfg, actions, s :: FanOut.Reaches(cfg, actions, s) && s.main.pc == FanOut.Returned(results)
  }

  ghost predicate ByPremium(quotes: seq<Quote>) {
    forall i, j :: 0 <= i < j < |quotes| ==> quotes[i].premium.amount <= quotes[j].premium.amount
  }

  lemma FannedOutIsSound(results: seq<Quote>)
    requires FannedOut(results)
    ensures DistinctCarriers(results) && ByPremium(results)
  {
    if results != [] {
      var cfg, actions, s :| FanOut.Reaches(cfg, actions, s) && s.main.pc == FanOut.Returned(results);
      FanOutTheorems.ResultIsSound(cfg, actions, s);
    }
  }

  /** Looks the request up if there is a repository, and only if nothing is found runs the
      fan-out, which returns `results`, and saves them. A failing lookup counts as a miss and a
      failing save is ignored. Either way the answer has one quote per carrier, by premium. */
  method GetQuotes(repo: Repository?, request: string, key: string, now: int, results: seq<Quote>,
                   lookupFails: bool, saveFails: bool) returns (quotes: seq<Quote>, fannedOut: bool)
    requires FannedOut(results)
    modifies repo
    ensures DistinctCarriers(quotes) && ByPremium(quotes)
    ensures fannedOut ==> quotes == results
    ensures fannedOut <==>
            || repo == null || request == "" || lookupFails
            || forall c :: (key, c) in old(repo.rows) ==> old(repo.rows)[(key, c)].expiresAt <= now
    ensures !fannedOut ==> Answers(old(repo.rows), key, now, quotes)
    ensures repo != null ==>
              repo.rows == if fannedOut && request != "" && !saveFails then SaveAll(old(repo.rows), key, results)
                           else old(repo.rows)
  {
    if repo != null && request != "" && !lookupFails {
      var cached, ok := repo.FindByRequestID(key, now);
      if ok {
        return cached, false;
      }
    }
    FannedOutIsSound(results);
    quotes, fannedOut := results, true;
    if repo != null && request != "" && |quotes| > 0 && !saveFails {
      repo.Save(key, quotes);
    }
  }

  /** A request repeated while none of its quotes has expired is answered from the cache with
      exactly the quotes of its first answer, normalised. */
  method AskTwice(
    repo: Repository, request: string, key: string, now: int, later: int, results: seq<Quote>,
    other: seq<Quote>)
    returns (again: seq<Quote>, fannedOut: bool)
    requires request != "" && results != [] && FannedOut(results) && FannedOut(other) && now <= later
    requires forall c :: (key, c) !in repo.rows
    requires forall i :: 0 <= i < |results| ==> results[i].expiresAt > later
    modifies repo
    ensures !fannedOut && DistinctCarriers(again) && ByPremium(again)
    ensures forall q :: q in again <==> exists i :: 0 <= i < |results| && KeptOf(q, results[i], key)
  {
    ghost var empty := repo.rows;
    var first, missed := GetQuotes(repo, request, key, now, results, false, false);
    SaveExactly(empty, key, results, (key, results[0].carrierId));
    assert Live(repo.rows, key, later, results[0].carrierId) by {
      assert Arrived(results, results[0].carrierId);
    }
    again, fannedOut := GetQuotes(repo, request, key, later, other, false, false);
    RoundTrip(empty, key, results, later, again);
  }
}
