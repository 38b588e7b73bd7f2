/** The two capped exponential backoffs: the pauses of `flushWithRetry`
    (internal/buffer/buffer.go) and `retryDelay` with the Connect loop
    (internal/repository/repository.go). */
module Backoff {
  import opened Arithmetic
  import opened Results

  function Pow2(n: nat): nat {
    if n == 0 then 1 else 2 * Pow2(n - 1)
  }

  lemma {:induction false} Pow2Monotone(m: nat, n: nat)
    requires m <= n
    ensures 1 <= Pow2(m) <= Pow2(n)
  {
    if m < n {
      Pow2Monotone(m, n - 1);
    } else if n > 0 {
      Pow2Monotone(m - 1, n - 1);
    }
  }

  // ----- the pauses between flush attempts, in milliseconds -----

  const FIRST_PAUSE := 10
  const LONGEST_PAUSE := 1000

  /** `backoff *= 2`, then the cap. */
  function NextPause(pause: nat): nat {
    if pause * 2 > LONGEST_PAUSE then LONGEST_PAUSE else pause * 2
  }

  /** The pause after the failure number `i`, counting from zero. */
  function Pause(i: nat): nat {
    if i == 0 then FIRST_PAUSE else NextPause(Pause(i - 1))
  }

  /** All pauses of `n` failures. */
  function PauseTotal(n: nat): nat {
    if n == 0 then 0 else PauseTotal(n - 1) + Pause(n - 1)
  }

  lemma {:induction false} PauseClosedForm(i: nat)
    ensures Pause(i) == Min(10 * Pow2(i), 1000)
  {
    if i == 0 {
    } else {
      PauseClosedForm(i - 1);
      Pow2Monotone(0, i - 1);
    }
  }

  lemma PauseTable()
    ensures Pow2(0) == 1 && Pow2(1) == 2 && Pow2(2) == 4 && Pow2(3) == 8 && Pow2(4) == 16 && Pow2(5) == 32
      && Pow2(6) == 64 && Pow2(7) == 128
  {
    assert Pow2(3) == 2 * Pow2(2) && Pow2(5) == 2 * Pow2(4) && Pow2(7) == 2 * Pow2(6);
  }

  /** Seven doubling pauses, then one second each. */
  lemma {:induction false} PauseTotalClosedForm(n: nat)
    ensures PauseTotal(n) == if n <= 7 then 10 * (Pow2(n) - 1) else 1270 + 1000 * (n - 7)
  {
    if n == 0 {
    } else {
      PauseTotalClosedForm(n - 1);
      PauseClosedForm(n - 1);
      PauseTable();
      if n <= 7 {
        Pow2Monotone(n - 1, 6);
      } else {
        Pow2Monotone(7, n - 1);
      }
    }
  }

  /** The configured maximum of ten attempts never sleeps more than 4.27 seconds. */
  lemma PauseTotalBound(n: nat)
    requires n <= 10
    ensures PauseTotal(n) <= 4270
  {
    PauseTotalClosedForm(n);
    PauseTable();
    if n <= 7 { Pow2Monotone(n, 7); }
  }

  // ----- retryDelay -----

  /** The documented formula: base * 2^attempt, capped. */
  function Delay(attempt: nat, base: int, max: int): int {
    Min(base * Pow2(attempt), max)
  }

  /** Some doubling up to the last one leaves, in 64 bits, more than the cap. */
  ghost predicate Overruns(attempt: nat, base: Int64, max: Int64) {
    exists i: nat :: 1 <= i <= attempt && Wrap64(base * Pow2(i)) > max
  }

  /** What the loop computes: the cap is applied only after a doubling, and a doubling may wrap. */
  ghost function ActualDelay(attempt: nat, base: Int64, max: Int64): Int64 {
    if Overruns(attempt, base, max) then max else Wrap64(base * Pow2(attempt))
  }

  lemma DoublingStep(base: int, i: nat)
    ensures base * Pow2(i + 1) == 2 * (base * Pow2(i))
  {
  }

  method RetryDelay(attempt: nat, base: Int64, max: Int64) returns (delay: Int64)
    ensures delay == ActualDelay(attempt, base, max)
  {
    var d := base;
    for i := 0 to attempt
      invariant d == Wrap64(base * Pow2(i))
      invariant forall j: nat :: 1 <= j <= i ==> Wrap64(base * Pow2(j)) <= max
    {
      WrapDouble(base * Pow2(i));
      DoublingStep(base, i);
      d := Wrap64(d * 2);
      if d > max {
        return max;
      }
    }
    delay := d;
  }

  lemma ScaleMonotone(base: int, m: nat, n: nat)
    requires 0 < base && m <= n
    ensures base * m <= base * n
  {
  }

  lemma FormulaGrows(a: nat, b: nat, base: int, max: int)
    requires 0 < base <= max && a <= b
    ensures base <= Delay(a, base, max) <= Delay(b, base, max) <= max
  {
    Pow2Monotone(a, b);
    Pow2Monotone(0, a);
    ScaleMonotone(base, Pow2(a), Pow2(b));
    ScaleMonotone(base, 1, Pow2(a));
  }

  /** A doubling that has not passed the cap has not wrapped, nor has any before it. */
  lemma BelowCap(i: nat, k: nat, base: Int64, max: Int64)
    requires 0 < base && i <= k && base * Pow2(k) <= max
    ensures Wrap64(base * Pow2(i)) == base * Pow2(i) <= max
  {
    Pow2Monotone(i, k);
    ScaleMonotone(base, Pow2(i), Pow2(k));
  }

  /** The first doubling past the cap. */
  lemma {:induction false} FirstPast(attempt: nat, base: Int64, max: Int64) returns (k: nat)
    requires 0 < base <= max < base * Pow2(attempt)
    ensures 1 <= k <= attempt && base * Pow2(k - 1) <= max < base * Pow2(k)
  {
    if base * Pow2(attempt - 1) <= max {
      k := attempt;
    } else {
      k := FirstPast(attempt - 1, base, max);
    }
  }

  lemma ExactBelowCap(attempt: nat, base: Int64, max: Int64)
    requires 0 < base && base * Pow2(attempt) <= max
    ensures ActualDelay(attempt, base, max) == base * Pow2(attempt)
  {
    BelowCap(attempt, attempt, base, max);
    forall i: nat | 1 <= i <= attempt ensures Wrap64(base * Pow2(i)) <= max {
      BelowCap(i, attempt, base, max);
    }
  }

  lemma WrapIsIdentity(x: int)
    requires -TWO_63 <= x < TWO_63
    ensures Wrap64(x) == x
  {
  }

  lemma CapPastCap(attempt: nat, k: nat, base: Int64, max: Int64)
    requires 1 <= k <= attempt && max < base * Pow2(k) < TWO_63
    ensures ActualDelay(attempt, base, max) == max
  {
    WrapIsIdentity(base * Pow2(k));
    assert Overruns(attempt, base, max);
  }

  /** No doubling of the base falls where the next one wraps before it can be capped. */
  ghost predicate NeverWraps(base: Int64, max: Int64) {
    forall k: nat :: !(TWO_63 / 2 <= base * Pow2(k) <= max)
  }

  lemma CappedAt(attempt: nat, base: Int64, max: Int64)
    requires 0 < base <= max && NeverWraps(base, max)
    ensures ActualDelay(attempt, base, max) == Delay(attempt, base, max)
  {
    if base * Pow2(attempt) <= max {
      ExactBelowCap(attempt, base, max);
    } else {
      var k := FirstPast(attempt, base, max);
      DoublingStep(base, k - 1);
      Pow2Monotone(0, k - 1);
      assert base * Pow2(k - 1) < TWO_63 / 2;
      CapPastCap(attempt, k, base, max);
    }
  }

  lemma WrapIsNegative(x: int)
    requires TWO_63 <= x < TWO_64
    ensures Wrap64(x) == x - TWO_64 < 0
  {
    assert x + TWO_63 == TWO_64 + (x - TWO_63);
  }

  lemma WrapsPastCap(k: nat, base: Int64, max: Int64)
    requires 0 < base && TWO_63 / 2 <= base * Pow2(k) <= max
    ensures ActualDelay(k + 1, base, max) < 0 && ActualDelay(k + 1, base, max) != Delay(k + 1, base, max)
  {
    forall i: nat | i <= k ensures Wrap64(base * Pow2(i)) <= max {
      BelowCap(i, k, base, max);
    }
    DoublingStep(base, k);
    WrapIsNegative(base * Pow2(k + 1));
    assert !Overruns(k + 1, base, max);
  }

  /** The documented formula holds for every attempt exactly when the base does not exceed the
      cap and no doubling of it falls between 2^62 and the cap: from there the next doubling
      wraps to a negative duration. A cap below 2^62 ns rules the second case out. */
  lemma CappedIff(base: Int64, max: Int64)
    requires 0 < base && 0 < max
    ensures (forall attempt: nat :: ActualDelay(attempt, base, max) == Delay(attempt, base, max)) <==>
      base <= max && NeverWraps(base, max)
  {
    if base > max {
      assert ActualDelay(0, base, max) == base != Delay(0, base, max);
    } else if k: nat :| TWO_63 / 2 <= base * Pow2(k) <= max {
      WrapsPastCap(k, base, max);
    } else {
      forall attempt: nat ensures ActualDelay(attempt, base, max) == Delay(attempt, base, max) {
        CappedAt(attempt, base, max);
      }
    }
  }

  lemma GrowsWhenCapped(a: nat, b: nat, base: Int64, max: Int64)
    requires 0 < base <= max && NeverWraps(base, max) && a <= b
    ensures ActualDelay(a, base, max) <= ActualDelay(b, base, max) <= max
  {
    CappedAt(a, base, max);
    CappedAt(b, base, max);
    FormulaGrows(a, b, base, max);
  }

  lemma ShrinksWhenWrapped(k: nat, base: Int64, max: Int64)
    requires 0 < base && TWO_63 / 2 <= base * Pow2(k) <= max
    ensures ActualDelay(k + 1, base, max) < 0 < ActualDelay(k, base, max)
  {
    ExactBelowCap(k, base, max);
    WrapsPastCap(k, base, max);
  }

  lemma ShrinksToCap(base: Int64, max: Int64)
    requires 0 < max < base
    ensures ActualDelay(1, base, max) <= max < base == ActualDelay(0, base, max)
  {
    WrapIsIdentity(base);
  }

  /** What the loop returns never shrinks from one attempt to a later one, and stays within the
      cap, exactly when the documented formula holds for every attempt. */
  lemma DelaysGrow(base: Int64, max: Int64)
    requires 0 < base && 0 < max
    ensures (forall a: nat, b: nat :: a <= b ==> ActualDelay(a, base, max) <= ActualDelay(b, base, max))
      <==> base <= max && NeverWraps(base, max)
    ensures base <= max && NeverWraps(base, max) ==> forall a: nat :: 0 < ActualDelay(a, base, max) <= max
  {
    if base > max {
      ShrinksToCap(base, max);
    } else if k: nat :| TWO_63 / 2 <= base * Pow2(k) <= max {
      ShrinksWhenWrapped(k, base, max);
    } else {
      forall a: nat, b: nat | a <= b
        ensures 0 < ActualDelay(a, base, max) <= ActualDelay(b, base, max) <= max
      {
        GrowsWhenCapped(a, b, base, max);
        GrowsWhenCapped(0, a, base, max);
        ExactBelowCap(0, base, max);
      }
    }
  }

  // ----- Connect -----

  datatype ConnectError = OpenFailed | Cancelled | PingFailed

  class Conn {
    var pings: nat
    var open: bool

    constructor ()
      ensures pings == 0 && open
    {
      pings, open := 0, true;
    }

    method Ping(answers: bool) returns (ok: bool)
      modifies this`pings
      ensures pings == old(pings) + 1 && ok == answers
    {
      pings := pings + 1;
      ok := answers;
    }

    method Close()
      modifies this`open
      ensures !open
    {
      open := false;
    }
  }

  /** How many pings are sent from the one numbered `from` on: up to the first that is answered,
      that a cancelled pause follows, or that is the last one allowed. */
  function Pings(answers: seq<bool>, cancelled: seq<bool>, from: nat, limit: nat): (n: nat)
    requires from <= limit < |answers| && limit < |cancelled|
    ensures 1 <= n && from + n <= limit + 1
    decreases limit - from
  {
    if answers[from] || from == limit || cancelled[from] then 1 else 1 + Pings(answers, cancelled, from + 1, limit)
  }

  /** Pings until one is answered. `handle` is what opening the driver gave, `answers[i]` tells
      whether the ping number `i` is answered, `cancelled[i]` whether the context ends during the
      pause after it. */
  method Connect(handle: Conn?, maxRetries: int, base: Int64, max: Int64, answers: seq<bool>, cancelled: seq<bool>)
    returns (conn: Conn?, err: Option<ConnectError>, slept: seq<int>)
    requires var limit := if maxRetries <= 0 then 3 else maxRetries; |answers| > limit && |cancelled| > limit
    requires handle != null ==> handle.open
    modifies handle
    ensures err == Some(OpenFailed) <==> handle == null
    ensures conn == if err.None? then handle else null
    ensures handle != null ==> (handle.open <==> err.None?)
    ensures handle != null ==>
      var limit := if maxRetries <= 0 then 3 else maxRetries;
      var n := handle.pings - old(handle.pings) - 1;
      && 0 <= n <= limit && |slept| == n && n + 1 == Pings(answers, cancelled, 0, limit)
      && (forall i :: 0 <= i < n ==> !answers[i] && !cancelled[i])
      && (err.None? <==> answers[n])
      && (err == Some(PingFailed) <==> n == limit && !answers[n])
      && (err == Some(Cancelled) <==> n < limit && !answers[n] && cancelled[n])
    ensures forall i :: 0 <= i < |slept| ==>
      var b: Int64, m: Int64 := if base <= 0 then 500_000_000 else base, if max <= 0 then 10_000_000_000 else max;
      slept[i] == ActualDelay(i, b, m)
  {
    slept := [];
    var limit := if maxRetries <= 0 then 3 else maxRetries;
    var baseDelay: Int64 := if base <= 0 then 500_000_000 else base;
    var maxDelay: Int64 := if max <= 0 then 10_000_000_000 else max;
    if handle == null {
      return null, Some(OpenFailed), slept;
    }
    var ok := false;
    for attempt := 0 to limit + 1
      invariant handle.open && !ok
      invariant handle.pings == old(handle.pings) + attempt
      invariant forall i :: 0 <= i < attempt ==> !answers[i] && (i < limit ==> !cancelled[i])
      invariant attempt <= limit ==>
        Pings(answers, cancelled, 0, limit) == attempt + Pings(answers, cancelled, attempt, limit)
      invariant attempt > limit ==> Pings(answers, cancelled, 0, limit) == limit + 1
      invariant |slept| == if attempt <= limit then attempt else limit
      invariant forall i :: 0 <= i < |slept| ==> slept[i] == ActualDelay(i, baseDelay, maxDelay)
    {
      ok := handle.Ping(answers[attempt]);
      if ok {
        return handle, None, slept;
      }
      if attempt < limit {
        var delay := RetryDelay(attempt, baseDelay, maxDelay);
        if cancelled[attempt] {
          handle.Close();
          return null, Some(Cancelled), slept;
        }
        slept := slept + [delay];
      }
    }
    handle.Close();
    return null, Some(PingFailed), slept;
  }

  /** The last ping is the first one that ends the loop, and one of the first `limit` + 1. */
  lemma {:induction false} LastPing(answers: seq<bool>, cancelled: seq<bool>, from: nat, limit: nat)
    requires from <= limit < |answers| && limit < |cancelled|
    ensures var n := from + Pings(answers, cancelled, from, limit) - 1;
      && from <= n <= limit && (answers[n] || cancelled[n] || n == limit)
      && forall i :: from <= i < n ==> !answers[i] && !cancelled[i]
    decreases limit - from
  {
    if !answers[from] && from != limit && !cancelled[from] {
      LastPing(answers, cancelled, from + 1, limit);
    }
  }

  /** Connect succeeds exactly when one of maxRetries + 1 pings is answered before any pause is
      cut short. */
  lemma ConnectsIff(answers: seq<bool>, cancelled: seq<bool>, limit: nat)
    requires limit < |answers| && limit < |cancelled|
    ensures answers[Pings(answers, cancelled, 0, limit) - 1] <==>
      exists n: nat :: n <= limit && answers[n] && forall i :: 0 <= i < n ==> !cancelled[i]
  {
    LastPing(answers, cancelled, 0, limit);
  }
}
