/** Retrying a statement: backoff arithmetic on 64-bit unsigned integers and the retry loop. */
module Retry {
  import opened Values

  const U64_MAX: nat := 0xFFFF_FFFF_FFFF_FFFF

  function Min(a: nat, b: nat): nat { if a <= b then a else b }

  function SatMul(a: nat, b: nat): nat { Min(a * b, U64_MAX) }

  function SatSub(a: nat, b: nat): nat { if b <= a then a - b else 0 }

  function SatAdd(a: nat, b: nat): nat { Min(a + b, U64_MAX) }

  function Pow2(n: nat): nat { if n == 0 then 1 else 2 * Pow2(n - 1) }

  /** The exponential delay before jitter, capped. */
  function Capped(base: nat, max: nat, attempt: nat): nat { Min(SatMul(base, Pow2(Min(attempt, 20))), max) }

  /** The last, unchecked multiplication and addition stay in the 64-bit range; the others saturate. */
  predicate Fits(c: nat, p: nat) { c * p <= U64_MAX && c + c * p / 100 <= U64_MAX }

  function Lowest(c: nat, p: nat): nat { SatSub(c, SatMul(c, p) / 100) }

  function Offset(c: nat, p: nat, seed: nat): nat {
    var span := SatMul(c, 2 * p) / 100;
    seed % (if span > 1 then span else 1)
  }

  /** Milliseconds to sleep after failed attempt number `attempt`; None is an arithmetic overflow. */
  function Backoff(base: nat, max: nat, p: nat, attempt: nat, seed: nat): Option<nat> {
    var c := Capped(base, max, attempt);
    if p == 0 || c == 0 then Some(c)
    else if !Fits(c, p) then None
    else Some(Min(SatAdd(Lowest(c, p), Offset(c, p, seed)), c + c * p / 100))
  }

  lemma HalfSpan(x: nat)
    ensures (2 * x) / 100 <= 2 * (x / 100) + 1
  {
  }

  lemma PercentAtMost(c: nat, p: nat)
    requires p <= 100
    ensures c * p / 100 <= c
  {
    assert c * p <= c * 100;
  }

  lemma SpanAtMost(c: nat, p: nat)
    ensures SatMul(c, 2 * p) / 100 <= 2 * (c * p / 100) + 1
  {
    assert c * (2 * p) == 2 * (c * p);
    HalfSpan(c * p);
  }

  lemma JitterStaysInside(c: nat, p: nat, seed: nat)
    requires p <= 100 && Fits(c, p)
    ensures Lowest(c, p) == c - c * p / 100
    ensures Lowest(c, p) + Offset(c, p, seed) <= c + c * p / 100
  {
    PercentAtMost(c, p);
    SpanAtMost(c, p);
  }

  /** For every seed, attempt and jitter the delay, unless it overflows, lies within p percent of the
      capped exponential, not below zero; up to 100 percent the final `min` never changes it, and it
      does not overflow while 100 times the cap fits 64 bits. */
  lemma BackoffWithinJitter(base: nat, max: nat, p: nat, attempt: nat, seed: nat)
    ensures var c, delay := Capped(base, max, attempt), Backoff(base, max, p, attempt, seed);
      && (delay.Some? ==> SatSub(c, c * p / 100) <= delay.value <= c + c * p / 100)
      && (delay.None? <==> c > 0 && p > 0 && !Fits(c, p))
      && (p <= 100 && 100 * max <= U64_MAX ==> delay.Some?)
      && (0 < p <= 100 && c > 0 && delay.Some? ==> delay.value == Lowest(c, p) + Offset(c, p, seed))
  {
    var c := Capped(base, max, attempt);
    if p <= 100 {
      PercentAtMost(c, p);
      MulMonotone(c, p, 100);
      if Fits(c, p) { JitterStaysInside(c, p, seed); }
    }
  }

  lemma {:induction false} Pow2Monotone(a: nat, b: nat)
    requires a <= b
    ensures Pow2(a) <= Pow2(b)
  {
    if a < b { Pow2Monotone(a, b - 1); }
  }

  lemma MulMonotone(x: nat, a: nat, b: nat)
    requires a <= b
    ensures x * a <= x * b
  {
  }

  /** Later attempts never wait on a shorter base delay, and none on more than the cap. */
  lemma CappedGrows(base: nat, max: nat, a: nat, b: nat)
    requires a <= b
    ensures Capped(base, max, a) <= Capped(base, max, b) <= max
  {
    Pow2Monotone(Min(a, 20), Min(b, 20));
    MulMonotone(base, Pow2(Min(a, 20)), Pow2(Min(b, 20)));
  }

  // ----- the loop -------------------------------------------------------------------------

  datatype Failure =
    | PoolExhausted | ConnectFailed | PgError(sqlstate: string) | ConditionalCheckFailed | TableNotFound
    | KeyTypeMismatch | MissingSortKey | UnexpectedSortKey | TransactionCancelled | Other

  datatype Attempt<T> = Success(value: T) | Failed(error: Failure)

  predicate TransientSqlstate(s: string) {
    |s| >= 5 && ("08" <= s || "53" <= s || s in {"40001", "40P01", "57P01", "57P02", "57P03", "57P04", "57P05"})
  }

  predicate Retryable(e: Failure) {
    match e
    case PoolExhausted => true
    case ConnectFailed => true
    case PgError(s) => TransientSqlstate(s)
    case _ => false
  }

  predicate TryAgain<T(!new)>(a: Attempt<T>) { a.Failed? && Retryable(a.error) }

  /** `f(i)` is what call `i` of the operation answers. The operation is called again exactly after
      retryable failures within the budget, and the last call's answer is returned. */
  method WithRetry<T(!new)>(maxAttempts: nat, f: nat -> Attempt<T>) returns (r: Attempt<T>, calls: nat)
    ensures 1 <= calls <= (if maxAttempts > 1 then maxAttempts else 1)
    ensures r == f(calls - 1)
    ensures forall i :: 0 <= i < calls - 1 ==> TryAgain(f(i))
    ensures TryAgain(r) ==> calls >= maxAttempts
  {
    var attempt := 0;
    while true
      invariant attempt == 0 || attempt < maxAttempts
      invariant forall i :: 0 <= i < attempt ==> TryAgain(f(i))
      decreases maxAttempts - attempt
    {
      r := f(attempt);
      calls := attempt + 1;
      if !TryAgain(r) || attempt + 1 >= maxAttempts { return; }
      attempt := attempt + 1;
    }
  }
}
