/** Value types shared by the gateway's components. Durations and instants are
    integers counting nanoseconds, as Go's time package counts them. */
module Domain {

  datatype Option<+T> = None | Some(value: T)

  function AsSeq<T>(o: Option<T>): seq<T> {
    if o.Some? then [o.value] else []
  }

  /** The errors a carrier call can end with; `Other` stands for every error that
      matches none of the sentinels. */
  datatype Error = CircuitOpen | RateLimitExceeded | DeadlineExceeded | CarrierTimeout | Other(message: string)

  datatype Money = Money(amount: int, currency: string)

  datatype Quote = Quote(
    requestId: string,
    carrierId: string,
    premium: Money,
    expiresAt: int,
    carrierRef: string,
    latency: int,
    isHedged: bool)

  const MILLISECOND := 1_000_000
  const MAX_INT64 := 0x7fff_ffff_ffff_ffff
  const MIN_INT64 := -0x8000_0000_0000_0000

  /** Go's integer division: it truncates toward zero. */
  function Quotient(a: int, b: int): (q: int)
    requires b > 0
    ensures 0 <= a ==> q * b <= a < (q + 1) * b
    ensures a < 0 ==> (q - 1) * b < a <= q * b
  {
    if a >= 0 then a / b else -((-a) / b)
  }
}
