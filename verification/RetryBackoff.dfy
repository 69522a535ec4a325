/** The delay before a failed job is tried again (api/worker.go). */
module RetryBackoff {

  const MAX_INT64: int := 0x7fff_ffff_ffff_ffff

  /** Go's time.Duration: every value the loop computes must fit, or verification fails. */
  newtype Duration = x: int | -MAX_INT64 - 1 <= x <= MAX_INT64

  ghost function Power2(n: nat): nat {
    if n == 0 then 1 else 2 * Power2(n - 1)
  }

  ghost function Min(a: int, b: int): int { if a < b then a else b }

  /** The intended delay of an attempt: doubling from `initial`, cut off at `max`. */
  ghost function Delay(attempt: int, initial: int, max: int): int {
    Min(max, initial * Power2(if attempt > 1 then attempt - 1 else 0))
  }

  lemma {:induction false} Power2Grows(n: nat, m: nat)
    requires n <= m
    ensures 1 <= Power2(n) <= Power2(m)
    decreases m
  {
    if n < m {
      Power2Grows(n, m - 1);
    } else if n > 0 {
      Power2Grows(n - 1, m - 1);
    }
  }

  lemma DoublingGrows(initial: int, n: nat, m: nat)
    requires 0 < initial && n <= m
    ensures initial * Power2(n) <= initial * Power2(m)
  {
    Power2Grows(n, m);
  }

  /** Later attempts never wait less, never less than `initial` and never more than `max`. */
  lemma DelayMonotone(earlier: int, later: int, initial: int, max: int)
    requires 0 < initial <= max && earlier <= later
    ensures initial <= Delay(earlier, initial, max) <= Delay(later, initial, max) <= max
  {
    var n, m := if earlier > 1 then earlier - 1 else 0, if later > 1 then later - 1 else 0;
    DoublingGrows(initial, n, m);
    DoublingGrows(initial, 0, n);
  }

  /** The first delay is the initial one, and each later one doubles the one before, up to the maximum. */
  lemma DelayDoubles(attempt: int, initial: int, max: int)
    requires 0 < initial <= max
    ensures attempt <= 1 ==> Delay(attempt, initial, max) == initial
    ensures attempt >= 1 ==>
              var next, now := Delay(attempt + 1, initial, max), Delay(attempt, initial, max);
              next == if 2 * now > max then max else 2 * now
  {
    if attempt >= 1 {
      var power := Power2(attempt - 1);
      Power2Grows(0, attempt - 1);
      assert Power2(attempt) == 2 * power;
      assert initial * (2 * power) == 2 * (initial * power);
    }
  }

  method RetryDelay(attempt: int, initial: Duration, max: Duration) returns (delay: Duration)
    requires 0 < initial <= max
    ensures delay as int == Delay(attempt, initial as int, max as int)
  {
    delay := initial;
    var current := 1;
    while current < attempt && delay < max
      invariant 1 <= current && (current <= attempt || current == 1)
      invariant 0 < delay <= max
      invariant delay as int == initial as int * Power2(current - 1)
      decreases attempt - current
    {
      if delay > max / 2 {
        DoublingGrows(initial as int, current, attempt - 1);
        return max;
      }
      delay := delay * 2;
      current := current + 1;
    }
    if current < attempt {
      DoublingGrows(initial as int, current - 1, attempt - 1);
    }
    if delay > max {
      return max;
    }
  }
}
