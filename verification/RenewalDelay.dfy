/** When a certificate is renewed next: domainRenewal.next and the delay after a failed renewal, in the int64
    nanoseconds of a Go Duration. */
module RenewalDelay {
  const HOUR: int := 3600 * 1_000_000_000
  const RENEW_JITTER: int := HOUR
  const MAX_DURATION: int := 0x7fff_ffff_ffff_ffff
  const MIN_DURATION: int := -0x8000_0000_0000_0000

  type Duration = d: int | MIN_DURATION <= d <= MAX_DURATION

  /** Two's complement wrap-around of a sum or difference of two durations. */
  function Wrap(x: int): Duration
    requires MIN_DURATION - MAX_DURATION <= x <= MAX_DURATION - MIN_DURATION
  {
    if x < MIN_DURATION then x + 0x1_0000_0000_0000_0000
    else if x > MAX_DURATION then x - 0x1_0000_0000_0000_0000
    else x
  }

  /** time.Time.Sub, which saturates. */
  function Sub(t: int, u: int): Duration {
    if t - u > MAX_DURATION then MAX_DURATION else if t - u < MIN_DURATION then MIN_DURATION else t - u
  }

  /** Manager.renewBefore: whatever is configured, the margin exceeds the jitter. */
  function RenewBefore(configured: Duration): (r: Duration)
    ensures r > RENEW_JITTER
    ensures configured > RENEW_JITTER ==> r == configured
    ensures configured <= RENEW_JITTER ==> r == 30 * 24 * HOUR
  {
    if configured > RENEW_JITTER then configured else 720 * HOUR
  }

  /** domainRenewal.next, with n for the random part. */
  method Next(expiry: int, now: int, configured: Duration, n: int) returns (d: Duration)
    requires 0 <= n < RENEW_JITTER
    ensures d >= 0
    ensures d == NextDelay(expiry - now, RenewBefore(configured), n)
  {
    d := Wrap(Sub(expiry, now) - RenewBefore(configured));
    d := Wrap(d - n);
    if d < 0 {
      return 0;
    }
  }

  /** What next computes from the time left until expiry. */
  function NextDelay(left: int, margin: Duration, n: int): Duration
    requires margin > RENEW_JITTER && 0 <= n < RENEW_JITTER
  {
    var d := Wrap(Wrap(Sub(left, 0) - margin) - n);
    if d < 0 then 0 else d
  }

  /** What next is for: the time until the margin before expiry, less the jitter, or nothing if that has passed. */
  function Wanted(left: int, margin: Duration, n: int): int {
    if left - margin - n < 0 then 0 else left - margin - n
  }

  /** The difference saturates for an expiry some 292 years or more ahead; and for one as far back, which validCert
      lets no certificate have, the subtractions wrap around to a positive delay. */
  predicate Fits(left: int, margin: Duration, n: int) {
    && (left <= MAX_DURATION || left - margin - n <= 0)
    && var y := Sub(left, 0) - margin - n;
       (y >= MIN_DURATION || y <= -0x1_0000_0000_0000_0000)
  }

  /** next is right exactly for the times that fit. */
  lemma NextIsWanted(left: int, margin: Duration, n: int)
    requires margin > RENEW_JITTER && 0 <= n < RENEW_JITTER
    ensures NextDelay(left, margin, n) == Wanted(left, margin, n) <==> Fits(left, margin, n)
  {
    var y := Sub(left, 0) - margin - n;
    if y < MIN_DURATION {
      assert Wrap(Wrap(Sub(left, 0) - margin) - n) == y + 0x1_0000_0000_0000_0000;
    }
  }

  /** A renewal lands in the hour that ends at expiry minus the margin, or happens at once if it is too late. */
  lemma LandsInTheHour(expiry: int, now: int, margin: Duration, n: int)
    requires margin > RENEW_JITTER && 0 <= n < RENEW_JITTER && Fits(expiry - now, margin, n)
    ensures var due := now + NextDelay(expiry - now, margin, n);
      if now <= expiry - margin - n then expiry - margin - RENEW_JITTER < due <= expiry - margin else due == now
  {
    NextIsWanted(expiry - now, margin, n);
  }

  /** For the expiry of a certificate that validCert has just accepted, which has not passed: next is right exactly
      if the expiry is not too far ahead for a Duration, some 292 years. */
  lemma NextOfValidCert(left: int, margin: Duration, n: int)
    requires RENEW_JITTER < margin <= MAX_DURATION - HOUR && 0 <= n < RENEW_JITTER && left >= 0
    ensures NextDelay(left, margin, n) == Wanted(left, margin, n) <==> left <= MAX_DURATION
    ensures NextDelay(left, margin, n) <= Wanted(left, margin, n)
  {
    NextIsWanted(left, margin, n);
  }

  const YEAR: int := 8766 * HOUR

  /** A certificate that does not run out in anyone's lifetime, as one with the usual expiry in the year 9999: its
      renewal comes early, not the margin before its expiry. */
  lemma FarAhead()
    ensures NextDelay(7900 * YEAR, 720 * HOUR, 0) < 293 * YEAR
    ensures Wanted(7900 * YEAR, 720 * HOUR, 0) > 7899 * YEAR
  {
    NextIsWanted(7900 * YEAR, 720 * HOUR, 0);
  }

  /** The delay after a failure, with r for the random part, lies between half an hour and an hour. */
  method AfterFailure(r: int) returns (next: Duration)
    requires 0 <= r < RENEW_JITTER / 2
    ensures HOUR / 2 <= next < HOUR && next == 30 * 60 * 1_000_000_000 + r
  {
    next := RENEW_JITTER / 2;
    next := next + r;
  }
}
