/**
 The retry delay of a deferred message: the base interval in minutes, doubled per attempt
 by a shift of a signed 64-bit nanosecond count, and only then capped at one day.
 */
module Backoff {
  import opened Clock

  const TWO63: int := 0x8000_0000_0000_0000
  const TWO64: int := 0x1_0000_0000_0000_0000

  /** The signed 64-bit value congruent to `x`. */
  function Wrap64(x: int): (r: int)
    ensures -TWO63 <= r < TWO63
  {
    var m := x % TWO64;
    if m < TWO63 then m else m - TWO64
  }

  function Pow2(n: nat): (p: int)
    ensures p >= 1
  {
    if n == 0 then 1 else 2 * Pow2(n - 1)
  }

  function ShiftLeft64(x: int, n: nat): int {
    Wrap64(x * Pow2(n))
  }

  /** The delay stored after the given number of attempts. */
  function Delay(baseMin: int, attempts: nat): int
    requires attempts >= 1
  {
    var d := ShiftLeft64(Wrap64(baseMin * MINUTE), attempts - 1);
    if d > DAY then DAY else d
  }

  /** The delay that was meant: doubling over unbounded integers, capped at one day. */
  function Intended(baseMin: int, attempts: nat): int
    requires attempts >= 1
  {
    var d := baseMin * MINUTE * Pow2(attempts - 1);
    if d <= DAY then d else DAY
  }

  predicate Fits(baseMin: int, attempts: nat)
    requires attempts >= 1
  {
    baseMin * MINUTE * Pow2(attempts - 1) < TWO63
  }

  // ---------- Arithmetic ----------

  lemma WrapUnique(x: int, k: int, r: int)
    requires x == k * TWO64 + r && -TWO63 <= r < TWO63
    ensures Wrap64(x) == r
  {
    if r >= 0 {
      ModUnique(x, k, r);
    } else {
      ModUnique(x, k - 1, r + TWO64);
    }
  }

  lemma ModUnique(x: int, k: int, r: int)
    requires x == k * TWO64 + r && 0 <= r < TWO64
    ensures x % TWO64 == r
  {
    assert x == x / TWO64 * TWO64 + x % TWO64;
  }

  /** Wrapping before a multiplication is lost in wrapping after it. */
  lemma WrapTwice(x: int, p: int)
    ensures Wrap64(Wrap64(x) * p) == Wrap64(x * p)
  {
    var q := (x - Wrap64(x)) / TWO64;
    assert x == q * TWO64 + Wrap64(x) by {
      assert x == x / TWO64 * TWO64 + x % TWO64;
    }
    var y := Wrap64(x) * p;
    var r := Wrap64(y);
    var k := (y - r) / TWO64;
    assert y == k * TWO64 + r by {
      assert y == y / TWO64 * TWO64 + y % TWO64;
    }
    assert x * p == (q * p + k) * TWO64 + r by {
      assert x * p == q * TWO64 * p + Wrap64(x) * p;
      assert q * TWO64 * p == q * p * TWO64;
    }
    WrapUnique(x * p, q * p + k, r);
  }

  lemma Positive(x: int, y: int)
    requires x >= 1 && y >= 1
    ensures x * y >= 1
  {
  }

  lemma Doubled(x: int, q: int)
    ensures x * (2 * q) == 2 * (x * q)
  {
  }

  lemma {:induction false} Pow2Add(a: nat, b: nat)
    ensures Pow2(a + b) == Pow2(a) * Pow2(b)
  {
    if a > 0 {
      Pow2Add(a - 1, b);
      assert 2 * (Pow2(a - 1) * Pow2(b)) == 2 * Pow2(a - 1) * Pow2(b);
    }
  }

  lemma {:induction false} Pow2Grows(a: nat, b: nat)
    requires a <= b
    ensures Pow2(a) <= Pow2(b)
  {
    if a < b {
      Pow2Grows(a, b - 1);
    }
  }

  lemma SomePowers()
    ensures Pow2(24) == 16777216 && Pow2(25) == 33554432 && Pow2(64) == TWO64
  {
    assert Pow2(8) == 256;
    Pow2Add(8, 8);
    Pow2Add(16, 8);
    Pow2Add(16, 16);
    Pow2Add(32, 32);
  }

  lemma ShiftedOut(x: int, p: int)
    ensures Wrap64(x * (p * TWO64)) == 0
  {
    assert x * (p * TWO64) == x * p * TWO64;
    WrapUnique(x * (p * TWO64), x * p, 0);
  }

  // ---------- When the delay is the intended one ----------

  /** The single wrap that the two in the code amount to. */
  lemma DelayWrapsOnce(baseMin: int, attempts: nat)
    requires attempts >= 1
    ensures var d := Wrap64(baseMin * MINUTE * Pow2(attempts - 1));
            Delay(baseMin, attempts) == if d > DAY then DAY else d
  {
    WrapTwice(baseMin * MINUTE, Pow2(attempts - 1));
  }

  /** An attempt whose shifted count fits has the intended delay; one whose count does not should wait a day. */
  lemma DelayByWrap(baseMin: int, attempts: nat)
    requires baseMin >= 1 && attempts >= 1
    ensures Fits(baseMin, attempts) ==> Delay(baseMin, attempts) == Intended(baseMin, attempts)
    ensures !Fits(baseMin, attempts) ==> Intended(baseMin, attempts) == DAY
  {
    var p := Pow2(attempts - 1);
    DelayWrapsOnce(baseMin, attempts);
    Positive(baseMin * MINUTE, p);
    if Fits(baseMin, attempts) {
      WrapUnique(baseMin * MINUTE * p, 0, baseMin * MINUTE * p);
    }
  }

  /** While it fits, the delay is positive, within a day, and never shorter than that of the attempt before. */
  lemma DelayGrows(baseMin: int, attempts: nat)
    requires baseMin >= 1 && attempts >= 1 && Fits(baseMin, attempts)
    ensures 0 < Delay(baseMin, attempts) <= DAY
    ensures attempts > 1 ==> Delay(baseMin, attempts - 1) <= Delay(baseMin, attempts)
  {
    var x := baseMin * MINUTE;
    Positive(x, Pow2(attempts - 1));
    DelayByWrap(baseMin, attempts);
    if attempts > 1 {
      Positive(x, Pow2(attempts - 2));
      Doubled(x, Pow2(attempts - 2));
      DelayByWrap(baseMin, attempts - 1);
    }
  }

  // ---------- When every delay up to an attempt is the intended one ----------

  /** The base interval as the signed 64-bit count it is stored in. */
  function Base(baseMin: int): int {
    Wrap64(baseMin * MINUTE)
  }

  /** Shifted `attempts - 1` places the stored base is still a positive 64-bit count. */
  predicate StaysInRange(base: int, attempts: nat)
    requires attempts >= 1
  {
    base * Pow2(attempts - 1) < TWO63
  }

  lemma DelayOfBase(baseMin: int, attempts: nat)
    requires attempts >= 1
    ensures var d := Wrap64(Base(baseMin) * Pow2(attempts - 1));
            Delay(baseMin, attempts) == if d > DAY then DAY else d
  {
  }

  /** The first shift out of the range sets the sign bit: the message is due in the past. */
  lemma FirstOverflowIsNegative(baseMin: int, attempts: nat)
    requires attempts >= 2 && Base(baseMin) >= 1
    requires StaysInRange(Base(baseMin), attempts - 1) && !StaysInRange(Base(baseMin), attempts)
    ensures Delay(baseMin, attempts) < 0
  {
    var x := Base(baseMin) * Pow2(attempts - 1);
    Doubled(Base(baseMin), Pow2(attempts - 2));
    WrapUnique(x, 1, x - TWO64);
    DelayOfBase(baseMin, attempts);
  }

  lemma {:induction false} FirstOverflow(base: int, attempts: nat) returns (k: nat)
    requires base >= 1 && base < TWO63 && attempts >= 1 && !StaysInRange(base, attempts)
    ensures 2 <= k <= attempts && StaysInRange(base, k - 1) && !StaysInRange(base, k)
  {
    if attempts >= 2 && !StaysInRange(base, attempts - 1) {
      k := FirstOverflow(base, attempts - 1);
    } else {
      assert Pow2(0) == 1;
      k := attempts;
    }
  }

  lemma {:induction false} RangeShrinks(base: int, k: nat, attempts: nat)
    requires base >= 1 && 1 <= k <= attempts && StaysInRange(base, attempts)
    ensures StaysInRange(base, k)
  {
    if k < attempts {
      Positive(base, Pow2(attempts - 2));
      Doubled(base, Pow2(attempts - 2));
      RangeShrinks(base, k, attempts - 1);
    }
  }

  predicate AllIntended(baseMin: int, attempts: nat) {
    forall k: nat :: 1 <= k <= attempts ==> Delay(baseMin, k) == Intended(baseMin, k)
  }

  /** In range, the delay is the stored base doubled and capped; it is the intended one if the base was not wrapped or is past the cap. */
  lemma InRangeDelay(baseMin: int, k: nat)
    requires baseMin >= 1 && k >= 1 && StaysInRange(Base(baseMin), k)
    requires Base(baseMin) == baseMin * MINUTE || Base(baseMin) >= DAY
    ensures Delay(baseMin, k) == Intended(baseMin, k)
  {
    var w, p := Base(baseMin), Pow2(k - 1);
    Positive(w, p);
    WrapUnique(w * p, 0, w * p);
    DelayOfBase(baseMin, k);
    if w != baseMin * MINUTE {
      AtLeast(w, p);
      AtLeast(baseMin * MINUTE, p);
      assert baseMin * MINUTE >= DAY by {
        if baseMin * MINUTE < DAY {
          WrapUnique(baseMin * MINUTE, 0, baseMin * MINUTE);
        }
      }
    }
  }

  lemma AtLeast(x: int, y: int)
    requires x >= 1 && y >= 1
    ensures x * y >= x
  {
  }

  /**
   For any positive base, every delay up to the given attempt is the intended one exactly when the base interval
   is stored as it is, or wraps to a day or more, and what is stored can be shifted that far within 63 bits.
   */
  lemma DelaysIntendedIff(baseMin: int, attempts: nat)
    requires baseMin >= 1 && attempts >= 1
    ensures AllIntended(baseMin, attempts) <==>
            (Base(baseMin) == baseMin * MINUTE || Base(baseMin) >= DAY) && StaysInRange(Base(baseMin), attempts)
  {
    var w := Base(baseMin);
    if w != baseMin * MINUTE && w < DAY {
      WrappedBaseFails(baseMin);
    } else if !StaysInRange(w, attempts) {
      var k := FirstOverflow(w, attempts);
      FirstOverflowIsNegative(baseMin, k);
      Positive(baseMin * MINUTE, Pow2(k - 1));
      assert Delay(baseMin, k) != Intended(baseMin, k);
    } else {
      forall k: nat | 1 <= k <= attempts ensures Delay(baseMin, k) == Intended(baseMin, k) {
        RangeShrinks(w, k, attempts);
        InRangeDelay(baseMin, k);
      }
    }
  }

  lemma WrappedBaseFails(baseMin: int)
    requires baseMin >= 1 && Base(baseMin) != baseMin * MINUTE && Base(baseMin) < DAY
    ensures Delay(baseMin, 1) != Intended(baseMin, 1)
  {
    assert Pow2(0) == 1;
    WrapUnique(Base(baseMin), 0, Base(baseMin));
    DelayOfBase(baseMin, 1);
    if baseMin * MINUTE <= DAY {
      WrapUnique(baseMin * MINUTE, 0, baseMin * MINUTE);
    }
  }

  /** For a base interval that fits, every delay up to the given attempt is the intended one exactly when the last shift fits. */
  lemma DelaysIntendedIffFits(baseMin: int, attempts: nat)
    requires baseMin >= 1 && attempts >= 1 && Fits(baseMin, 1)
    ensures AllIntended(baseMin, attempts) <==> Fits(baseMin, attempts)
  {
    assert Pow2(0) == 1;
    WrapUnique(baseMin * MINUTE, 0, baseMin * MINUTE);
    DelaysIntendedIff(baseMin, attempts);
  }

  /** The intended delay begins with the base and doubles from attempt to attempt, up to a day. */
  lemma IntendedDoubles(baseMin: int, attempts: nat)
    requires baseMin >= 1 && attempts >= 1
    ensures Intended(baseMin, 1) == if baseMin * MINUTE <= DAY then baseMin * MINUTE else DAY
    ensures Intended(baseMin, attempts + 1)
            == if 2 * Intended(baseMin, attempts) <= DAY then 2 * Intended(baseMin, attempts) else DAY
  {
    assert Pow2(0) == 1;
    Positive(baseMin * MINUTE, Pow2(attempts - 1));
    Doubled(baseMin * MINUTE, Pow2(attempts - 1));
  }

  /** The shipped configuration (base 5 minutes, 12 attempts) never leaves the range, nor does any attempt up to the 25th. */
  lemma DefaultsFit(attempts: nat)
    requires 1 <= attempts <= 25
    ensures Fits(5, attempts)
  {
    SomePowers();
    Pow2Grows(attempts - 1, 24);
  }

  /** The 26th attempt of the default base wraps: the next attempt is set in the past. */
  lemma DefaultsWrapAt26()
    ensures !Fits(5, 26) && Delay(5, 26) < 0
  {
    SomePowers();
    var x := 5 * MINUTE * Pow2(25);
    WrapUnique(x, 1, x - TWO64);
    DelayWrapsOnce(5, 26);
  }

  /** From the 65th attempt on, whatever the base, every bit is shifted out and the message is due at once. */
  lemma DelayVanishes(baseMin: int, attempts: nat)
    requires attempts >= 65
    ensures Delay(baseMin, attempts) == 0
  {
    SomePowers();
    Pow2Add(attempts - 65, 64);
    ShiftedOut(baseMin * MINUTE, Pow2(attempts - 65));
    DelayWrapsOnce(baseMin, attempts);
  }
}
