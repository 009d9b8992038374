/** One logical call of the API client: refresh on 401, bounded retries, backoff. */
module Retry {
  import opened Options

  datatype Failure = Failure(code: string, status: int)

  datatype Reply = Success | Failed(error: Failure)

  const AUTH_EXPIRED := Failure("AUTH_EXPIRED", 0)

  /** `isRetryable`. */
  predicate IsRetryable(e: Failure) {
    e.code in ["HANDOFF_API_TIMEOUT", "HANDOFF_API_UNAVAILABLE"]
    || (e.code == "HANDOFF_API_HTTP_ERROR" && (e.status >= 500 || e.status == 429))
  }

  /** `isUnauthorized`. */
  predicate IsUnauthorized(r: Reply) { r.Failed? && r.error.status == 401 }

  /** `maxRetries`: zero means the default, a negative value none. */
  function MaxRetries(configured: int): nat {
    if configured < 0 then 0 else if configured == 0 then 3 else configured
  }

  /** What the surroundings answer. Requests are numbered from 0: the reply to each, whether
      the refresh after it works, whether the caller's context is over once it has failed,
      and whether it ends during the wait that follows. */
  datatype World = World(reply: nat -> Reply, canRefresh: bool, refreshes: nat -> bool, over: nat -> bool,
                         interrupted: nat -> bool)

  /** How many requests were sent in all, and what came of it. */
  datatype Trace = Trace(requests: nat, result: Reply)

  /** `callWithRefresh`, `n` requests having been sent before. */
  function Attempt(w: World, n: nat): Trace {
    if !IsUnauthorized(w.reply(n)) || !w.canRefresh then Trace(n + 1, w.reply(n))
    else if !w.refreshes(n) then Trace(n + 1, Failed(AUTH_EXPIRED))
    else Trace(n + 2, w.reply(n + 1))
  }

  /** Whether `call` goes on to another attempt. */
  predicate TriesAgain(w: World, t: Trace) {
    t.result.Failed? && IsRetryable(t.result.error) && !w.over(t.requests) && !w.interrupted(t.requests)
  }

  /** `call`, from one of its attempts on. */
  function Run(w: World, max: nat, attempt: nat, n: nat): Trace
    requires attempt <= max
    decreases max - attempt
  {
    var t := Attempt(w, n);
    if attempt < max && TriesAgain(w, t) then Run(w, max, attempt + 1, t.requests) else t
  }

  method CallWithRefresh(w: World, n: nat) returns (t: Trace)
    ensures t == Attempt(w, n)
  {
    var err := w.reply(n);
    if !IsUnauthorized(err) || !w.canRefresh { return Trace(n + 1, err); }
    if !w.refreshes(n) { return Trace(n + 1, Failed(AUTH_EXPIRED)); }
    t := Trace(n + 2, w.reply(n + 1));
  }

  /** `call`. */
  method Call(w: World, configured: int) returns (t: Trace)
    ensures t == Run(w, MaxRetries(configured), 0, 0)
  {
    hide IsRetryable, Attempt;
    var max := MaxRetries(configured);
    var attempt, sent := 0, 0;
    var last := Success;
    while attempt <= max
      invariant attempt <= max + 1
      invariant 0 < attempt <= max ==> last.Failed? && IsRetryable(last.error) && !w.over(sent)
      invariant attempt <= max && (attempt == 0 || !w.interrupted(sent)) ==>
        Run(w, max, 0, 0) == Run(w, max, attempt, sent)
      invariant attempt > 0 && (attempt > max || w.interrupted(sent)) ==> Run(w, max, 0, 0) == Trace(sent, last)
      decreases max + 1 - attempt
    {
      if attempt > 0 {
        if w.interrupted(sent) { return Trace(sent, last); }
      }
      t := CallWithRefresh(w, sent);
      sent, last := t.requests, t.result;
      if last.Success? { return Trace(sent, last); }
      if w.over(sent) || !IsRetryable(last.error) { return Trace(sent, last); }
      attempt := attempt + 1;
    }
    t := Trace(sent, last);
  }

  // ------------------------------------------------------------ about one call

  /** At most two requests an attempt: one, and one more after a refresh. */
  lemma {:induction false} RequestsBounded(w: World, max: nat, attempt: nat, n: nat)
    requires attempt <= max
    ensures n < Run(w, max, attempt, n).requests <= n + 2 * (max - attempt + 1)
    decreases max - attempt
  {
    var t := Attempt(w, n);
    if attempt < max && TriesAgain(w, t) { RequestsBounded(w, max, attempt + 1, t.requests); }
  }

  /** A request that is followed by another one failed: in a way worth retrying, or for want
      of a valid token that was then refreshed. So nothing follows a success. */
  lemma {:induction false} FollowedOnlyIf(w: World, max: nat, attempt: nat, n: nat, i: nat)
    requires attempt <= max && n <= i && i + 1 < Run(w, max, attempt, n).requests
    ensures var r := w.reply(i);
            r.Failed? && (IsRetryable(r.error) || (IsUnauthorized(r) && w.canRefresh && w.refreshes(i)))
    decreases max - attempt
  {
    hide IsRetryable;
    var t := Attempt(w, n);
    if attempt < max && TriesAgain(w, t) && i >= t.requests { FollowedOnlyIf(w, max, attempt + 1, t.requests, i); }
    if t.requests == n + 1 && i == n { AuthExpiredIsFinal(); }
  }

  lemma AuthExpiredIsFinal()
    ensures !IsRetryable(AUTH_EXPIRED)
  {}

  /** The result is the last reply, or that the token could not be refreshed. */
  lemma {:induction false} ResultIsLastReply(w: World, max: nat, attempt: nat, n: nat)
    requires attempt <= max
    ensures var t := Run(w, max, attempt, n);
            && t.requests > n
            && (t.result == w.reply(t.requests - 1)
                || (t.result == Failed(AUTH_EXPIRED) && IsUnauthorized(w.reply(t.requests - 1)) && w.canRefresh
                    && !w.refreshes(t.requests - 1)))
    decreases max - attempt
  {
    hide IsRetryable;
    var t := Attempt(w, n);
    if attempt < max && TriesAgain(w, t) { ResultIsLastReply(w, max, attempt + 1, t.requests); }
  }

  /** How many attempts `call` makes, the one it is at included. */
  function Attempts(w: World, max: nat, attempt: nat, n: nat): nat
    requires attempt <= max
    decreases max - attempt
  {
    var t := Attempt(w, n);
    1 + if attempt < max && TriesAgain(w, t) then Attempts(w, max, attempt + 1, t.requests) else 0
  }

  /** A failure worth retrying is given up only after the last attempt, or because the
      caller's context ended. */
  lemma {:induction false} GivesUpOnlyIf(w: World, max: nat, attempt: nat, n: nat)
    requires attempt <= max
    ensures var t := Run(w, max, attempt, n);
            && 1 <= Attempts(w, max, attempt, n) <= max - attempt + 1
            && (t.result.Failed? && IsRetryable(t.result.error) ==>
                  w.over(t.requests) || w.interrupted(t.requests) || Attempts(w, max, attempt, n) == max - attempt + 1)
    decreases max - attempt
  {
    hide IsRetryable;
    var t := Attempt(w, n);
    if attempt < max && TriesAgain(w, t) { GivesUpOnlyIf(w, max, attempt + 1, t.requests); }
  }

  /** The failures that may pass: no answer in time, no answer, or one that the server is busy
      or broken. */
  predicate Transient(e: Failure) {
    || e.code == "HANDOFF_API_TIMEOUT" || e.code == "HANDOFF_API_UNAVAILABLE"
    || (e.code == "HANDOFF_API_HTTP_ERROR" && (429 == e.status || 500 <= e.status))
  }

  /** How many attempts a client allows beyond the first: as configured, three by default. */
  predicate Allows(configured: int, retries: nat) {
    && (configured > 0 ==> retries == configured) && (configured == 0 ==> retries == 3)
    && (configured < 0 ==> retries == 0)
  }

  /** The promises of one call together: two requests an attempt at most; a request is followed
      by another only after a failure that may pass, or for a token that was then refreshed;
      and a failure that may pass is returned only after the last attempt or once the caller's
      context is over. */
  lemma CallLaw(w: World, configured: int, retries: nat)
    requires Allows(configured, retries)
    ensures var t := Run(w, MaxRetries(configured), 0, 0);
            && 0 < t.requests <= 2 * (retries + 1)
            && (forall i :: 0 <= i < t.requests - 1 ==>
                  var r := w.reply(i);
                  r.Failed? && (Transient(r.error) || (r.error.status == 401 && w.canRefresh && w.refreshes(i))))
            && (t.result.Success? ==> w.reply(t.requests - 1).Success?)
            && (t.result.Failed? && Transient(t.result.error) ==>
                  || w.over(t.requests) || w.interrupted(t.requests)
                  || Attempts(w, MaxRetries(configured), 0, 0) == retries + 1)
  {
    hide Run, Attempts, Attempt;
    var max := MaxRetries(configured);
    var t := Run(w, max, 0, 0);
    RequestsBounded(w, max, 0, 0);
    ResultIsLastReply(w, max, 0, 0);
    GivesUpOnlyIf(w, max, 0, 0);
    forall i | 0 <= i < t.requests - 1
      ensures var r := w.reply(i);
              r.Failed? && (Transient(r.error) || (r.error.status == 401 && w.canRefresh && w.refreshes(i)))
    {
      FollowedOnlyIf(w, max, 0, 0, i);
    }
  }

  /** A server that answers every other request with 401 and the others with 503. */
  const WORST := World(
    n => Failed(Failure("HANDOFF_API_HTTP_ERROR", if n % 2 == 0 then 401 else 503)),
    true, _ => true, _ => false, _ => false)

  /** The bound is reached: eight requests with the default of three retries. */
  lemma {:induction false} BoundReached(max: nat, attempt: nat, n: nat)
    requires attempt <= max && n % 2 == 0
    ensures Run(WORST, max, attempt, n).requests == n + 2 * (max - attempt + 1)
    decreases max - attempt
  {
    assert IsUnauthorized(WORST.reply(n)) && (n + 1) % 2 == 1;
    assert Attempt(WORST, n) == Trace(n + 2, Failed(Failure("HANDOFF_API_HTTP_ERROR", 503)));
    if attempt < max { BoundReached(max, attempt + 1, n + 2); }
  }

  // ------------------------------------------------------------------- backoff

  const LIMIT := 0x8000_0000_0000_0000

  /** A `time.Duration` is a 64-bit integer that wraps around. */
  function Wrap(n: int): int { (n + LIMIT) % (2 * LIMIT) - LIMIT }

  const DEFAULT_BACKOFF := 200_000_000
  const MAX_BACKOFF := 5_000_000_000

  /** The doublings of `waitBackoff`. */
  function Doubled(backoff: int, times: nat): int
    decreases times
  {
    if times == 0 then backoff else
      var twice := Wrap(backoff * 2);
      if twice >= MAX_BACKOFF then MAX_BACKOFF else Doubled(twice, times - 1)
  }

  function Capped(backoff: int): int { if backoff > MAX_BACKOFF then MAX_BACKOFF else backoff }

  /** The interval `waitBackoff` computes before the given retry. */
  method Interval(base: int, attempt: nat) returns (backoff: int)
    requires attempt >= 1
    ensures backoff == Capped(Doubled(if base <= 0 then DEFAULT_BACKOFF else base, attempt - 1))
  {
    hide Wrap;
    var start := if base <= 0 then DEFAULT_BACKOFF else base;
    backoff := start;
    var i := 1;
    while i < attempt
      invariant 1 <= i <= attempt && Doubled(start, attempt - 1) == Doubled(backoff, attempt - i)
      decreases attempt - i
    {
      backoff := Wrap(backoff * 2);
      if backoff >= MAX_BACKOFF {
        backoff := MAX_BACKOFF;
        break;
      }
      i := i + 1;
    }
    if backoff > MAX_BACKOFF { backoff := MAX_BACKOFF; }
  }

  /** Go's division by two, towards zero. */
  function Halved(n: int): (half: int)
    ensures n >= 0 ==> 0 <= n - 2 * half <= 1
    ensures n < 0 ==> -1 <= n - 2 * half <= 0
  {
    if n >= 0 then n / 2 else 0 - (0 - n) / 2
  }

  /** `None` is a panic. */
  function WaitOf(backoff: int, draw: nat): Option<int> {
    var half := Halved(backoff);
    if half + 1 <= 0 then None else Some(half + draw % (half + 1))
  }

  function Pow2(n: nat): (p: nat)
    ensures p >= 1
  {
    if n == 0 then 1 else 2 * Pow2(n - 1)
  }

  function Min(a: int, b: int): int { if a <= b then a else b }

  /** What the documentation promises of retry number `attempt`: the wait is between half the
      doubled, capped base and all of it. */
  ghost predicate WaitsAsPromised(base: int, attempt: nat, draw: nat)
    requires attempt >= 1
  {
    var promised := Min(base * Pow2(attempt - 1), MAX_BACKOFF);
    var wait := WaitOf(Capped(Doubled(base, attempt - 1)), draw);
    wait.Some? && promised / 2 <= wait.value <= promised
  }

  lemma WrapSmall(n: int)
    requires 0 <= n < LIMIT
    ensures Wrap(n) == n
  {}

  lemma PowGrows(base: int, n: nat)
    requires base > 0
    ensures base * Pow2(n) >= base
  {}

  lemma PowStep(base: int, n: nat)
    ensures base * Pow2(n + 1) == (base * 2) * Pow2(n)
  {}

  /** Without overflow the doubling is the power of two, up to the cap. */
  lemma {:induction false} DoubledIsPower(base: int, times: nat)
    requires 0 < base < LIMIT / 2
    ensures Capped(Doubled(base, times)) == Min(base * Pow2(times), MAX_BACKOFF)
    decreases times
  {
    hide Pow2, Wrap;
    if times == 0 {
      assert Pow2(0) == 1 by { PowZero(); }
    } else {
      WrapSmall(base * 2);
      PowStep(base, times - 1);
      if base * 2 >= MAX_BACKOFF {
        PowGrows(base * 2, times - 1);
      } else {
        DoubledIsPower(base * 2, times - 1);
      }
    }
  }

  lemma PowZero()
    ensures Pow2(0) == 1
  {}

  lemma WaitInRange(backoff: int, draw: nat)
    requires backoff >= 0
    ensures WaitOf(backoff, draw).Some? && backoff / 2 <= WaitOf(backoff, draw).value <= backoff
  {}

  /** A base of 2^62 nanoseconds or more turns negative at its first doubling. */
  lemma OverflowPanics(base: int, draw: nat)
    requires LIMIT / 2 <= base < LIMIT
    ensures WaitOf(Capped(Doubled(base, 1)), draw).None?
  {
    assert Wrap(base * 2) == base * 2 - 2 * LIMIT;
  }

  /** Every retry waits as promised iff the base is below 2^62 nanoseconds. */
  lemma WaitLawIff(base: int)
    requires 0 < base < LIMIT
    ensures base < LIMIT / 2 <==>
              forall attempt: nat, draw: nat :: attempt >= 1 ==> WaitsAsPromised(base, attempt, draw)
  {
    if base < LIMIT / 2 {
      forall attempt: nat, draw: nat | attempt >= 1 ensures WaitsAsPromised(base, attempt, draw) {
        DoubledIsPower(base, attempt - 1);
        PowGrows(base, attempt - 1);
        WaitInRange(Min(base * Pow2(attempt - 1), MAX_BACKOFF), draw);
      }
    } else {
      OverflowPanics(base, 0);
      assert !WaitsAsPromised(base, 2, 0);
    }
  }

  /** `waitBackoff`, its draw reduced to the range that `Int63n` is asked for: it waits as
      promised for every base below 2^62, the default standing in for none. */
  method WaitBackoff(base: int, attempt: nat, draw: nat) returns (wait: Option<int>)
    requires attempt >= 1 && base < LIMIT
    ensures var used := if base <= 0 then DEFAULT_BACKOFF else base;
            && (used < LIMIT / 2 ==>
                  var promised := Min(used * Pow2(attempt - 1), MAX_BACKOFF);
                  wait.Some? && promised / 2 <= wait.value <= promised)
            && (used >= LIMIT / 2 && attempt == 2 ==> wait.None?)
  {
    var backoff := Interval(base, attempt);
    ghost var used := if base <= 0 then DEFAULT_BACKOFF else base;
    if used < LIMIT / 2 {
      DoubledIsPower(used, attempt - 1);
      PowGrows(used, attempt - 1);
      WaitInRange(backoff, draw);
    } else if attempt == 2 {
      OverflowPanics(used, draw);
    }
    var half := Halved(backoff);
    if half + 1 <= 0 { return None; }
    return Some(half + draw % (half + 1));
  }
}
