/** The HTTP carrier client's retry loop with exponential back-off. */
module Retry {
  import opened Domain

  datatype Config = Config(maxRetries: int, retryDelay: int, timeout: int)

  ghost predicate Resolved(cfg: Config) {
    1 <= cfg.maxRetries && 1 <= cfg.retryDelay <= MAX_INT64 && 1 <= cfg.timeout
  }

  /** Defaults replace every field that is not positive. The documentation offers zero retries
      as the way to disable them, but no configuration does: at least one retry is always made. */
  function WithDefaults(cfg: Config): (r: Config)
    ensures cfg.retryDelay <= MAX_INT64 ==> Resolved(r)
    ensures Resolved(cfg) ==> r == cfg
    ensures r.maxRetries >= 1 && (cfg.maxRetries <= 0 ==> r.maxRetries == 3)
    ensures cfg.retryDelay <= 0 ==> r.retryDelay == 100_000_000
    ensures cfg.timeout <= 0 ==> r.timeout == 5_000_000_000
    ensures 0 < cfg.maxRetries ==> r.maxRetries == cfg.maxRetries
    ensures 0 < cfg.retryDelay ==> r.retryDelay == cfg.retryDelay
    ensures 0 < cfg.timeout ==> r.timeout == cfg.timeout
  {
    Config(
      if cfg.maxRetries <= 0 then 3 else cfg.maxRetries,
      if cfg.retryDelay <= 0 then 100 * MILLISECOND else cfg.retryDelay,
      if cfg.timeout <= 0 then 5000 * MILLISECOND else cfg.timeout)
  }

  /** One attempt: its HTTP status (0 for a network error) and whether it failed. */
  datatype Attempt = Attempt(status: int, failed: bool) {
    predicate ClientFault() { failed && 400 <= status < 500 }
    predicate Settles() { !failed || ClientFault() }
  }

  datatype Ending = Succeeded | Refused(status: int) | Cancelled | Exhausted

  // ----- Delays -----

  /** Two's-complement wrap-around of a 64-bit integer. */
  function Wrap64(x: int): int {
    (x - MIN_INT64) % 0x1_0000_0000_0000_0000 + MIN_INT64
  }

  /** The delay after n doublings, as the 64-bit program computes it. */
  function Delay(base: int, n: nat): int {
    if n == 0 then base else Wrap64(2 * Delay(base, n - 1))
  }

  /** The same delay without any bound. */
  function Doubled(base: int, n: nat): int {
    if n == 0 then base else 2 * Doubled(base, n - 1)
  }

  function Pow2(n: nat): nat {
    if n == 0 then 1 else 2 * Pow2(n - 1)
  }

  lemma {:induction false} DoubledIsProduct(base: int, n: nat)
    ensures Doubled(base, n) == base * Pow2(n)
  {
    if n > 0 {
      DoubledIsProduct(base, n - 1);
      assert base * (2 * Pow2(n - 1)) == 2 * (base * Pow2(n - 1));
    }
  }

  lemma {:induction false} DoubledGrows(base: int, m: nat, n: nat)
    requires 1 <= base && m <= n
    ensures base <= Doubled(base, m) <= Doubled(base, n)
  {
    if m < n {
      DoubledGrows(base, m, n - 1);
    } else if m > 0 {
      DoubledGrows(base, m - 1, n - 1);
    }
  }

  lemma {:induction false} DelayExact(base: int, n: nat)
    requires 1 <= base && Doubled(base, n) <= MAX_INT64
    ensures Delay(base, n) == Doubled(base, n)
  {
    if n > 0 {
      DoubledGrows(base, n - 1, n);
      DelayExact(base, n - 1);
    }
  }

  lemma DelayInRange(base: int, n: nat)
    requires MIN_INT64 <= base <= MAX_INT64
    ensures MIN_INT64 <= Delay(base, n) <= MAX_INT64
  {
  }

  /** In every case the delay is the doubled one up to multiples of 2^64. */
  lemma {:induction false} DelayWraps(base: int, n: nat) returns (laps: int)
    ensures Delay(base, n) + laps * 0x1_0000_0000_0000_0000 == Doubled(base, n)
  {
    laps := 0;
    if n > 0 {
      var before := DelayWraps(base, n - 1);
      var twice := 2 * Delay(base, n - 1);
      laps := 2 * before + (twice + 0x8000_0000_0000_0000) / 0x1_0000_0000_0000_0000;
    }
  }

  /** The delays before the retries are RetryDelay * 2^j, none of them wrapped around,
      exactly when the last of them fits in 64 bits. */
  lemma DelaysExactlyWhenTheyFit(base: int, retries: nat)
    requires 1 <= base <= MAX_INT64 && 1 <= retries
    ensures (forall j: nat :: j < retries ==> Delay(base, j) == Doubled(base, j))
            <==> base * Pow2(retries - 1) <= MAX_INT64
  {
    DoubledIsProduct(base, retries - 1);
    if Doubled(base, retries - 1) <= MAX_INT64 {
      forall j: nat | j < retries ensures Delay(base, j) == Doubled(base, j) {
        DoubledGrows(base, j, retries - 1);
        DelayExact(base, j);
      }
    } else {
      DelayInRange(base, retries - 1);
      assert Delay(base, retries - 1) != Doubled(base, retries - 1);
    }
  }

  function TotalWait(xs: seq<int>): int {
    if xs == [] then 0 else TotalWait(xs[..|xs| - 1]) + xs[|xs| - 1]
  }

  /** The waits that were completed: one doubling after each. */
  ghost predicate BackOff(base: int, waits: seq<int>) {
    forall j :: 0 <= j < |waits| ==> waits[j] == Delay(base, j)
  }

  lemma {:induction false} WaitsAddUp(base: int, waits: seq<int>)
    requires 1 <= base && BackOff(base, waits)
    requires |waits| > 0 ==> Doubled(base, |waits| - 1) <= MAX_INT64
    ensures TotalWait(waits) == Doubled(base, |waits|) - base
  {
    if waits != [] {
      var n := |waits| - 1;
      if n > 0 {
        DoubledGrows(base, n - 1, n);
      }
      WaitsAddUp(base, waits[..n]);
      DelayExact(base, n);
    }
  }

  /** The waits completed before attempt k (counting from 1) add up to RetryDelay * (2^(k-1) - 1). */
  lemma TotalBackOff(base: int, waits: seq<int>, k: nat)
    requires 1 <= base && BackOff(base, waits) && k == |waits| + 1
    requires k > 1 ==> base * Pow2(k - 2) <= MAX_INT64
    ensures TotalWait(waits) == base * (Pow2(k - 1) - 1)
  {
    if k > 1 {
      DoubledIsProduct(base, k - 2);
    }
    WaitsAddUp(base, waits);
    DoubledIsProduct(base, k - 1);
    assert base * (Pow2(k - 1) - 1) == base * Pow2(k - 1) - base;
  }

  // ----- The loop -----

  /** None of attempts 0 .. k-1 settles the request, and the context is alive at each of
      the waits between them. */
  ghost predicate Passes(attempts: nat -> Attempt, cancelled: nat -> bool, k: nat) {
    && (forall i: nat :: i < k ==> !attempts(i).Settles())
    && (forall i: nat :: 1 <= i < k ==> !cancelled(i))
  }

  /** The request ends this way after `made` attempts. */
  ghost predicate Ends(cfg: Config, attempts: nat -> Attempt, cancelled: nat -> bool, ending: Ending, made: nat) {
    && 1 <= made <= cfg.maxRetries + 1
    && Passes(attempts, cancelled, made - 1) && (made > 1 ==> !cancelled(made - 1))
    && var last := attempts(made - 1);
       match ending
       case Succeeded => !last.failed
       case Refused(status) => last.ClientFault() && status == last.status
       case Cancelled => !last.Settles() && made <= cfg.maxRetries && cancelled(made)
       case Exhausted => !last.Settles() && made == cfg.maxRetries + 1
  }

  /** `attempts(k)` is what attempt k would return; `cancelled(k)` tells whether the context
      ends the wait before attempt k. */
  method Post(cfg: Config, attempts: nat -> Attempt, cancelled: nat -> bool)
    returns (ending: Ending, made: nat, waits: seq<int>)
    requires Resolved(cfg)
    ensures forall e, n :: Ends(cfg, attempts, cancelled, e, n) <==> e == ending && n == made
    ensures ending == Exhausted <==> Passes(attempts, cancelled, cfg.maxRetries + 1)
    ensures 1 <= made <= cfg.maxRetries + 1
    ensures forall k: nat :: k < made - 1 ==>
              attempts(k).failed && !(400 <= attempts(k).status < 500) && !cancelled(k + 1)
    ensures ending == Succeeded <==> !attempts(made - 1).failed
    ensures ending.Refused? <==> attempts(made - 1).failed && 400 <= attempts(made - 1).status < 500
    ensures ending.Refused? ==> ending.status == attempts(made - 1).status
    ensures ending == Cancelled ==> made <= cfg.maxRetries && cancelled(made)
    ensures ending == Exhausted ==> made == cfg.maxRetries + 1
    ensures |waits| == made - 1 && BackOff(cfg.retryDelay, waits)
  {
    var delay := cfg.retryDelay;
    waits := [];
    made := 0;
    var attempt := 0;
    while attempt <= cfg.maxRetries
      invariant 0 <= attempt <= cfg.maxRetries + 1 && made == attempt
      invariant |waits| == (if attempt == 0 then 0 else attempt - 1)
      invariant Passes(attempts, cancelled, attempt)
      invariant BackOff(cfg.retryDelay, waits) && delay == Delay(cfg.retryDelay, |waits|)
    {
      if attempt > 0 {
        if cancelled(attempt) {
          return Cancelled, made, waits;
        }
        waits := waits + [delay];
        delay := Wrap64(2 * delay);
      }
      var result := attempts(attempt);
      made := made + 1;
      if !result.failed {
        return Succeeded, made, waits;
      }
      if 400 <= result.status < 500 {
        return Refused(result.status), made, waits;
      }
      attempt := attempt + 1;
    }
    ending := Exhausted;
  }
}
