/** The exponential backoff of permanent failures, in Go's int64 durations. Every operation on a
    Duration is checked to stay within 64 bits. */
module Backoffs {

  newtype Duration = x: int | -0x8000_0000_0000_0000 <= x < 0x8000_0000_0000_0000

  const HOUR: Duration := 3_600_000_000_000
  const MAX_PERMANENT_BACKOFF: Duration := 6 * HOUR

  function Pow2(n: nat): (r: int)
    ensures r >= 1
  {
    if n == 0 then 1 else 2 * Pow2(n - 1)
  }

  lemma {:induction false} Pow2Monotone(m: nat, n: nat)
    requires m <= n
    ensures Pow2(m) <= Pow2(n)
  {
    if m < n {
      Pow2Monotone(m, n - 1);
    }
  }

  lemma Pow2At62()
    ensures Pow2(62) == 0x4000_0000_0000_0000
  {
    assert Pow2(10) == 1024;
    assert Pow2(20) == 1024 * 1024;
    assert Pow2(30) == 1024 * 1024 * 1024;
    assert Pow2(40) == 1024 * 1024 * 1024 * 1024;
    assert Pow2(50) == 1024 * 1024 * 1024 * 1024 * 1024;
  }

  function Shift(n: nat): (r: Duration)
    requires n < 63
    ensures r as int == Pow2(n)
  {
    Pow2At62();
    Pow2Monotone(n, 62);
    Pow2(n) as Duration
  }

  /** permanentBackoffDuration. */
  function PermanentBackoff(retryCount: int, base: Duration): Duration {
    var n := if retryCount < 1 then 1 else retryCount;
    if n >= 63 then MAX_PERMANENT_BACKOFF
    else
      var shift := Shift(n);
      if base <= 0 || shift > MAX_PERMANENT_BACKOFF / base then MAX_PERMANENT_BACKOFF
      else
        GuardIsExact(shift as int, base as int, MAX_PERMANENT_BACKOFF as int);
        base * shift
  }

  lemma GuardIsExact(shift: int, base: int, max: int)
    requires shift >= 1 && base >= 1 && max >= 0
    ensures shift > max / base <==> base * shift > max
    ensures base * shift >= shift
  {
    var q := max / base;
    assert base * q <= max < base * (q + 1);
    if shift > q {
      Scale(base, q + 1, shift);
    } else {
      Scale(base, shift, q);
    }
    Scale(shift, 1, base);
  }

  lemma Scale(b: int, x: int, y: int)
    requires b >= 0 && x <= y
    ensures b * x <= b * y
  {
  }

  function Ideal(retryCount: int, base: Duration): int {
    base as int * Pow2(if retryCount < 1 then 1 else retryCount)
  }

  /** The guards compute min(base * 2^max(count, 1), 6h) exactly; a base that is not positive
      takes the cap. */
  lemma BackoffIsCappedExponential(retryCount: int, base: Duration)
    ensures PermanentBackoff(retryCount, base) as int ==
      if base > 0 && Ideal(retryCount, base) < MAX_PERMANENT_BACKOFF as int then Ideal(retryCount, base)
      else MAX_PERMANENT_BACKOFF as int
  {
    var n := if retryCount < 1 then 1 else retryCount;
    if base > 0 {
      GuardIsExact(Pow2(n), base as int, MAX_PERMANENT_BACKOFF as int);
      if n >= 63 {
        Pow2At62();
        Pow2Monotone(62, n);
      }
    }
  }

  lemma BackoffIsMonotone(m: int, n: int, base: Duration)
    requires m <= n
    ensures PermanentBackoff(m, base) <= PermanentBackoff(n, base)
  {
    BackoffIsCappedExponential(m, base);
    BackoffIsCappedExponential(n, base);
    var m', n' := if m < 1 then 1 else m, if n < 1 then 1 else n;
    Pow2Monotone(m', n');
    if base > 0 {
      Scale(base as int, Pow2(m'), Pow2(n'));
    }
  }

  /** What extend reports: this failure is the first whose backoff reaches the cap. */
  predicate FirstCapped(count: int, base: Duration) {
    && PermanentBackoff(count, base) >= MAX_PERMANENT_BACKOFF
    && (count <= 1 || PermanentBackoff(count - 1, base) < MAX_PERMANENT_BACKOFF)
  }

  /** For each base exactly one count of a run reports firstCapped, so the Event it guards is
      fired at most once in a run, whose count grows by one with every failure. */
  lemma CapIsReachedOnce(base: Duration) returns (at: int)
    ensures 1 <= at <= 63 && PermanentBackoff(at, base) == MAX_PERMANENT_BACKOFF
    ensures at > 1 ==> PermanentBackoff(at - 1, base) < MAX_PERMANENT_BACKOFF
    ensures forall count :: count >= 1 ==> (FirstCapped(count, base) <==> count == at)
  {
    at := 1;
    while PermanentBackoff(at, base) < MAX_PERMANENT_BACKOFF
      invariant 1 <= at <= 63
      invariant at == 1 || PermanentBackoff(at - 1, base) < MAX_PERMANENT_BACKOFF
      decreases 63 - at
    {
      at := at + 1;
    }
    BackoffIsCappedExponential(at, base);
    forall count | count >= 1 ensures FirstCapped(count, base) <==> count == at {
      if count < at {
        BackoffIsMonotone(count, at - 1, base);
      } else if count > at {
        BackoffIsMonotone(at, count - 1, base);
      }
    }
  }
}
