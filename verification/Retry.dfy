/**
 * Retry-After parsing (sinks/base.py) and the delay before the next attempt (engine.py), over the
 * reals. What `float()` and the HTTP-date parser make of the header text is a `Header` value.
 */
module Retry {
  import opened Basics

  /** A Retry-After header (section 10.2.3 of RFC 9110), as the two library parsers read it. */
  datatype Header = Absent | Blank | Seconds(value: real) | NotFinite | Date(at: real) | Unreadable

  datatype Policy = Policy(maxAttempts: nat, baseBackoff: real, maxBackoff: real, jitter: real)

  predicate NonNegative(p: Policy) {
    p.baseBackoff >= 0.0 && p.maxBackoff >= 0.0 && p.jitter >= 0.0
  }

  function Max(a: real, b: real): real { if a < b then b else a }

  function Min(a: real, b: real): real { if b < a then b else a }

  /** A header is used exactly when it is a date or a finite non-negative number. The wait ends at the date,
      or now when the date has passed; a number is the wait itself. It is never negative. */
  function ParseRetryAfter(header: Header, now: real): (wait: Option<real>)
    ensures wait.Some? <==> header.Date? || (header.Seconds? && header.value >= 0.0)
    ensures wait.Some? ==> wait.value >= 0.0
    ensures wait.Some? && header.Seconds? ==> wait.value == header.value
    ensures wait.Some? && header.Date? ==> (header.at >= now ==> now + wait.value == header.at) && (header.at < now ==> wait.value == 0.0)
  {
    match header
    case Absent => None
    case Blank => None
    case Seconds(value) => if value >= 0.0 then Some(value) else None
    case NotFinite => None
    case Date(at) => Some(Max(0.0, at - now))
    case Unreadable => None
  }

  function Power2(n: nat): (r: real)
    ensures r >= 1.0
  {
    if n == 0 then 1.0 else 2.0 * Power2(n - 1)
  }

  /** `draw` is where in [-spread, spread] the random number fell, as a fraction in [-1, 1]. */
  function Jittered(seconds: real, jitter: real, draw: real): real {
    var spread := seconds * jitter;
    Max(0.0, seconds + draw * spread)
  }

  function RawDelay(p: Policy, attempt: nat, retryAfter: Option<real>): real {
    match retryAfter
    case None => p.baseBackoff * Power2(if attempt == 0 then 0 else attempt - 1)
    case Some(wait) => Max(0.0, wait)
  }

  function RetryDelay(p: Policy, attempt: nat, retryAfter: Option<real>, draw: real): real {
    Jittered(Min(RawDelay(p, attempt, retryAfter), p.maxBackoff), p.jitter, draw)
  }

  function LongestWait(p: Policy): real { p.maxBackoff * (1.0 + p.jitter) }

  lemma ScaledIsBetween(draw: real, spread: real)
    requires spread >= 0.0 && -1.0 <= draw <= 1.0
    ensures -spread <= draw * spread <= spread
  {
    assert (1.0 - draw) * spread >= 0.0 && (1.0 + draw) * spread >= 0.0;
  }

  /** No header and no draw can park a delivery for longer than the configured ceiling. */
  lemma DelayIsBounded(p: Policy, attempt: nat, header: Header, now: real, draw: real)
    requires NonNegative(p) && -1.0 <= draw <= 1.0
    ensures 0.0 <= RetryDelay(p, attempt, ParseRetryAfter(header, now), draw) <= LongestWait(p)
  {
    WaitIsBounded(p, attempt, ParseRetryAfter(header, now), draw);
  }

  lemma JitterStaysBelow(seconds: real, ceiling: real, jitter: real, draw: real)
    requires 0.0 <= seconds <= ceiling && jitter >= 0.0 && -1.0 <= draw <= 1.0
    ensures 0.0 <= Jittered(seconds, jitter, draw) <= ceiling + ceiling * jitter
  {
    ScaledIsBetween(draw, seconds * jitter);
    assert 0.0 <= (ceiling - seconds) * jitter == ceiling * jitter - seconds * jitter;
  }

  lemma WaitIsBounded(p: Policy, attempt: nat, retryAfter: Option<real>, draw: real)
    requires NonNegative(p) && -1.0 <= draw <= 1.0
    ensures 0.0 <= RetryDelay(p, attempt, retryAfter, draw) <= LongestWait(p)
  {
    assert 0.0 <= RawDelay(p, attempt, retryAfter);
    JitterStaysBelow(Min(RawDelay(p, attempt, retryAfter), p.maxBackoff), p.maxBackoff, p.jitter, draw);
    assert LongestWait(p) == p.maxBackoff + p.maxBackoff * p.jitter;
  }

  /** A destination that names a wait gets it, up to the ceiling; a negative one is now. */
  lemma RetryAfterIsHonoured(p: Policy, attempt: nat, wait: real)
    requires NonNegative(p)
    ensures RetryDelay(p, attempt, Some(wait), 0.0) ==
      if wait < 0.0 then 0.0 else if wait <= p.maxBackoff then wait else p.maxBackoff
  {
  }

  lemma Spread(seconds: real, jitter: real, draw: real, factor: real)
    requires factor == 1.0 + draw * jitter
    ensures Jittered(seconds, jitter, draw) == if seconds * factor < 0.0 then 0.0 else seconds * factor
  {
    var spread := seconds * jitter;
    assert draw * spread == seconds * (draw * jitter);
    assert seconds * factor == seconds + seconds * (draw * jitter);
  }

  lemma Unspread(seconds: real, jitter: real)
    requires seconds >= 0.0
    ensures Jittered(seconds, jitter, 0.0) == seconds
  {
    assert 0.0 * (seconds * jitter) == 0.0;
  }

  /** A draw spreads the delay that a draw of 0 gives, by that fraction of the jitter; never below zero. */
  lemma JitterSpreads(p: Policy, attempt: nat, retryAfter: Option<real>, draw: real)
    requires NonNegative(p)
    ensures var centre, factor := RetryDelay(p, attempt, retryAfter, 0.0), 1.0 + draw * p.jitter;
      RetryDelay(p, attempt, retryAfter, draw) == if centre * factor < 0.0 then 0.0 else centre * factor
  {
    var centre := RetryDelay(p, attempt, retryAfter, 0.0);
    Unspread(Min(RawDelay(p, attempt, retryAfter), p.maxBackoff), p.jitter);
    assert RetryDelay(p, attempt, retryAfter, draw) == Jittered(centre, p.jitter, draw);
    Spread(centre, p.jitter, draw, 1.0 + draw * p.jitter);
  }

  /** The curve begins at the configured base, and each attempt waits twice as long as the last, up to the
      ceiling; the draw then spreads it. */
  lemma FirstBackoffIsTheBase(p: Policy)
    requires NonNegative(p)
    ensures RetryDelay(p, 1, None, 0.0) == if p.baseBackoff <= p.maxBackoff then p.baseBackoff else p.maxBackoff
    ensures RetryDelay(p, 0, None, 0.0) == RetryDelay(p, 1, None, 0.0)
  {
    assert p.baseBackoff * Power2(0) == p.baseBackoff;
  }

  lemma BackoffDoubles(p: Policy, attempt: nat)
    requires NonNegative(p) && 1 <= attempt
    ensures var last := RetryDelay(p, attempt, None, 0.0);
      RetryDelay(p, attempt + 1, None, 0.0) == if 2.0 * last <= p.maxBackoff then 2.0 * last else p.maxBackoff
  {
    assert p.baseBackoff * Power2(attempt) == 2.0 * (p.baseBackoff * Power2(attempt - 1));
    assert p.baseBackoff * Power2(attempt - 1) >= 0.0;
  }
}
