/** The 16-bit linear feedback shift register that randomises the op counter
    (driver/ibs-interrupt.c, lfsr_random). */
module Lfsr {
  import opened Arith
  import opened LfsrJumps

  const SEED: bv32 := 0xF00D
  const PERIOD := 65535

  /** One advance of the register, which the source keeps in an unsigned 32-bit integer. */
  function Step(x: bv32): bv32 {
    var bit := (x ^ (x >> 2) ^ (x >> 3) ^ (x >> 5)) & 1;
    (x >> 1) | (bit << 15)
  }

  /** The value returned by call number `n`; call 0 stands for the seed itself. */
  function Value(n: nat): bv32 {
    if n == 0 then SEED else Step(Value(n - 1))
  }

  class Source {
    var value: bv32
    ghost var calls: nat

    ghost predicate Valid() reads this { value == Value(calls) }

    constructor ()
      ensures Valid() && calls == 0
    {
      value, calls := SEED, 0;
    }

    method Random() returns (r: bv32)
      requires Valid()
      modifies this
      ensures Valid() && calls == old(calls) + 1 && r == Value(calls)
      ensures 0 < r < 0x1_0000
    {
      var bit := (value ^ (value >> 2) ^ (value >> 3) ^ (value >> 5)) & 1;
      value := (value >> 1) | (bit << 15);
      calls := calls + 1;
      OutputInRange(calls);
      r := value;
    }
  }

  // ----- one step

  function Back(x: bv32): bv32 {
    var bit := ((x >> 15) ^ (x >> 1) ^ (x >> 2) ^ (x >> 4)) & 1;
    ((x << 1) & 0xFFFF) | bit
  }

  lemma StepStays(x: bv32)
    requires x < 0x1_0000
    ensures Step(x) < 0x1_0000
  {}

  lemma BackStays(x: bv32)
    requires x < 0x1_0000
    ensures Back(x) < 0x1_0000
  {}

  lemma BackOfStep(x: bv32)
    requires x < 0x1_0000
    ensures Back(Step(x)) == x
  {}

  lemma StepOfBack(x: bv32)
    requires x < 0x1_0000
    ensures Step(Back(x)) == x
  {}

  lemma StepNonzero(x: bv32)
    requires x < 0x1_0000
    ensures Step(x) == 0 <==> x == 0
  {}

  /** The step is one-to-one and onto on 16-bit values. */
  lemma StepIsBijection(x: bv32, y: bv32)
    requires x < 0x1_0000 && y < 0x1_0000
    ensures Step(x) == Step(y) ==> x == y
    ensures exists z: bv32 :: z < 0x1_0000 && Step(z) == y
  {
    BackOfStep(x);
    BackOfStep(y);
    BackStays(y);
    StepOfBack(y);
  }

  lemma {:induction false} OutputInRange(n: nat)
    ensures 0 < Value(n) < 0x1_0000
  {
    if n > 0 {
      OutputInRange(n - 1);
      StepStays(Value(n - 1));
      StepNonzero(Value(n - 1));
    }
  }

  // ----- the register as a window on a bit stream

  predicate Odd(f: nat -> int, n: nat) { f(n) % 2 == 1 }

  predicate Set(x: bv32, mask: bv32) { x & mask != 0 }

  /** The register holds bits `n` to `n + 15` of the stream, oldest bit lowest. */
  predicate Window(f: nat -> int, x: bv32, n: nat) {
    && Set(x, 0x1) == Odd(f, n) && Set(x, 0x2) == Odd(f, n + 1)
    && Set(x, 0x4) == Odd(f, n + 2) && Set(x, 0x8) == Odd(f, n + 3)
    && Set(x, 0x10) == Odd(f, n + 4) && Set(x, 0x20) == Odd(f, n + 5)
    && Set(x, 0x40) == Odd(f, n + 6) && Set(x, 0x80) == Odd(f, n + 7)
    && Set(x, 0x100) == Odd(f, n + 8) && Set(x, 0x200) == Odd(f, n + 9)
    && Set(x, 0x400) == Odd(f, n + 10) && Set(x, 0x800) == Odd(f, n + 11)
    && Set(x, 0x1000) == Odd(f, n + 12) && Set(x, 0x2000) == Odd(f, n + 13)
    && Set(x, 0x4000) == Odd(f, n + 14) && Set(x, 0x8000) == Odd(f, n + 15)
  }

  /** A stream that obeys the feedback relation and starts with the bits of the seed. */
  ghost predicate SeedStream(f: nat -> int) {
    Stream(f) && Window(f, SEED, 0)
  }

  function W(n: nat): int {
    if n < 16 then (if n in {0, 2, 3, 12, 13, 14, 15} then 1 else 0)
    else W(n - 16) + W(n - 14) + W(n - 13) + W(n - 11)
  }

  /** The bits of 0xF00D, lowest first. */
  predicate StartsWithSeed(f: nat -> int) {
    && Odd(f, 0) && !Odd(f, 1) && Odd(f, 2) && Odd(f, 3)
    && !Odd(f, 4) && !Odd(f, 5) && !Odd(f, 6) && !Odd(f, 7)
    && !Odd(f, 8) && !Odd(f, 9) && !Odd(f, 10) && !Odd(f, 11)
    && Odd(f, 12) && Odd(f, 13) && Odd(f, 14) && Odd(f, 15)
  }

  lemma SeedParities(f: nat -> int)
    ensures Window(f, SEED, 0) <==> StartsWithSeed(f)
  {}

  lemma FirstBits()
    ensures StartsWithSeed(W)
  {}

  lemma FeedbackInW(n: nat)
    ensures W(n + 16) == W(n) + W(n + 2) + W(n + 3) + W(n + 5)
  {}

  lemma SeedStreamExists()
    ensures SeedStream(W)
  {
    forall n: nat ensures Feedback(W, n) { FeedbackInW(n); }
    FirstBits();
    SeedParities(W);
  }

  lemma ShiftedBits(x: bv32)
    requires x < 0x1_0000
    ensures Set(Step(x), 0x1) == Set(x, 0x2)
    ensures Set(Step(x), 0x2) == Set(x, 0x4)
    ensures Set(Step(x), 0x4) == Set(x, 0x8)
    ensures Set(Step(x), 0x8) == Set(x, 0x10)
    ensures Set(Step(x), 0x10) == Set(x, 0x20)
    ensures Set(Step(x), 0x20) == Set(x, 0x40)
    ensures Set(Step(x), 0x40) == Set(x, 0x80)
    ensures Set(Step(x), 0x80) == Set(x, 0x100)
    ensures Set(Step(x), 0x100) == Set(x, 0x200)
    ensures Set(Step(x), 0x200) == Set(x, 0x400)
    ensures Set(Step(x), 0x400) == Set(x, 0x800)
    ensures Set(Step(x), 0x800) == Set(x, 0x1000)
    ensures Set(Step(x), 0x1000) == Set(x, 0x2000)
    ensures Set(Step(x), 0x2000) == Set(x, 0x4000)
    ensures Set(Step(x), 0x4000) == Set(x, 0x8000)
  {}

  lemma FeedbackBit(x: bv32)
    requires x < 0x1_0000
    ensures Set(Step(x), 0x8000) == (((Set(x, 0x1) != Set(x, 0x4)) != Set(x, 0x8)) != Set(x, 0x20))
  {}

  lemma OddFeedback(f: nat -> int, n: nat)
    requires Stream(f)
    ensures Odd(f, n + 16) == (((Odd(f, n) != Odd(f, n + 2)) != Odd(f, n + 3)) != Odd(f, n + 5))
  {
    assert Feedback(f, n);
  }

  lemma SameBits(x: bv32, y: bv32)
    requires x < 0x1_0000 && y < 0x1_0000
    requires Set(x, 0x1) == Set(y, 0x1)
    requires Set(x, 0x2) == Set(y, 0x2)
    requires Set(x, 0x4) == Set(y, 0x4)
    requires Set(x, 0x8) == Set(y, 0x8)
    requires Set(x, 0x10) == Set(y, 0x10)
    requires Set(x, 0x20) == Set(y, 0x20)
    requires Set(x, 0x40) == Set(y, 0x40)
    requires Set(x, 0x80) == Set(y, 0x80)
    requires Set(x, 0x100) == Set(y, 0x100)
    requires Set(x, 0x200) == Set(y, 0x200)
    requires Set(x, 0x400) == Set(y, 0x400)
    requires Set(x, 0x800) == Set(y, 0x800)
    requires Set(x, 0x1000) == Set(y, 0x1000)
    requires Set(x, 0x2000) == Set(y, 0x2000)
    requires Set(x, 0x4000) == Set(y, 0x4000)
    requires Set(x, 0x8000) == Set(y, 0x8000)
    ensures x == y
  {}

  lemma WindowMoves(f: nat -> int, x: bv32, n: nat)
    requires Stream(f)
    requires x < 0x1_0000 && Window(f, x, n)
    ensures Window(f, Step(x), n + 1)
  {
    ShiftedBits(x);
    FeedbackBit(x);
    OddFeedback(f, n);
  }

  lemma {:induction false} OutputIsWindow(f: nat -> int, n: nat)
    requires SeedStream(f)
    ensures Window(f, Value(n), n)
  {
    if n > 0 {
      OutputInRange(n - 1);
      OutputIsWindow(f, n - 1);
      WindowMoves(f, Value(n - 1), n - 1);
    }
  }

  predicate Same(f: nat -> int, m: nat, n: nat, i: nat) {
    Odd(f, m + i) == Odd(f, n + i)
  }

  /** Sixteen consecutive equal bits. */
  ghost predicate Agree(f: nat -> int, m: nat, n: nat) {
    forall i: nat :: i < 16 ==> Same(f, m, n, i)
  }

  lemma SameWindows(f: nat -> int, m: nat, x: bv32, n: nat, y: bv32)
    requires x < 0x1_0000 && y < 0x1_0000
    requires Window(f, x, m) && Window(f, y, n)
    ensures x == y <==> Agree(f, m, n)
  {
    if Agree(f, m, n) {
      assert Same(f, m, n, 0) && Same(f, m, n, 1) && Same(f, m, n, 2) && Same(f, m, n, 3);
      assert Same(f, m, n, 4) && Same(f, m, n, 5) && Same(f, m, n, 6) && Same(f, m, n, 7);
      assert Same(f, m, n, 8) && Same(f, m, n, 9) && Same(f, m, n, 10) && Same(f, m, n, 11);
      assert Same(f, m, n, 12) && Same(f, m, n, 13) && Same(f, m, n, 14) && Same(f, m, n, 15);
      SameBits(x, y);
    } else if x == y {
      assert Same(f, m, n, 0) && Same(f, m, n, 1) && Same(f, m, n, 2) && Same(f, m, n, 3);
      assert Same(f, m, n, 4) && Same(f, m, n, 5) && Same(f, m, n, 6) && Same(f, m, n, 7);
      assert Same(f, m, n, 8) && Same(f, m, n, 9) && Same(f, m, n, 10) && Same(f, m, n, 11);
      assert Same(f, m, n, 12) && Same(f, m, n, 13) && Same(f, m, n, 14) && Same(f, m, n, 15);
      assert false;
    }
  }

  // ----- periods of the stream

  predicate Repeats(f: nat -> int, q: nat, n: nat) {
    Odd(f, n + q) == Odd(f, n)
  }

  ghost predicate Period(f: nat -> int, q: nat) {
    forall n: nat :: Repeats(f, q, n)
  }

  lemma {:induction false} AgreeForever(f: nat -> int, m: nat, n: nat, i: nat)
    requires Stream(f) && Agree(f, m, n)
    ensures Same(f, m, n, i)
  {
    if i >= 16 {
      AgreeForever(f, m, n, i - 16);
      AgreeForever(f, m, n, i - 14);
      AgreeForever(f, m, n, i - 13);
      AgreeForever(f, m, n, i - 11);
      OddFeedback(f, m + i - 16);
      OddFeedback(f, n + i - 16);
    }
  }

  /** Agreement spreads down to the start of the stream, since the oldest bit of a window is
      determined by the newer ones. */
  lemma {:induction false} AgreeFromStart(f: nat -> int, m: nat, q: nat)
    requires Stream(f) && Agree(f, m, m + q)
    ensures Period(f, q)
    decreases m
  {
    if m == 0 {
      forall n: nat ensures Repeats(f, q, n) {
        AgreeForever(f, 0, q, n);
        assert Same(f, 0, q, n);
      }
    } else {
      var a, b := m - 1, m - 1 + q;
      forall i: nat | i < 16 ensures Same(f, a, b, i) {
        if i > 0 {
          assert Same(f, m, m + q, i - 1);
        } else {
          OddFeedback(f, a);
          OddFeedback(f, b);
          assert Same(f, m, m + q, 1) && Same(f, m, m + q, 2) && Same(f, m, m + q, 4) && Same(f, m, m + q, 15);
        }
      }
      AgreeFromStart(f, m - 1, q);
    }
  }

  lemma EqualOutputsAgree(f: nat -> int, m: nat, n: nat)
    requires SeedStream(f)
    ensures Value(m) == Value(n) <==> Agree(f, m, n)
  {
    OutputIsWindow(f, m);
    OutputIsWindow(f, n);
    OutputInRange(m);
    OutputInRange(n);
    SameWindows(f, m, Value(m), n, Value(n));
  }

  lemma AgreementIsPeriod(f: nat -> int, m: nat, q: nat)
    requires Stream(f)
    ensures Agree(f, m, m + q) <==> Period(f, q)
  {
    if Agree(f, m, m + q) {
      AgreeFromStart(f, m, q);
    }
    if Period(f, q) {
      var n := m + q;
      forall i: nat | i < 16 ensures Same(f, m, n, i) {
        assert Repeats(f, q, m + i);
      }
    }
  }

  lemma {:induction false} PeriodMultiple(f: nat -> int, q: nat, k: nat)
    requires Period(f, q)
    ensures Period(f, k * q)
  {
    if k > 0 {
      PeriodMultiple(f, q, k - 1);
      var less, all := (k - 1) * q, k * q;
      assert all == less + q;
      forall n: nat ensures Repeats(f, all, n) {
        assert Repeats(f, less, n) && Repeats(f, q, n + less);
      }
    }
  }

  lemma PeriodDifference(f: nat -> int, a: nat, b: nat)
    requires Period(f, a + b) && Period(f, b)
    ensures Period(f, a)
  {
    forall n: nat ensures Repeats(f, a, n) {
      assert Repeats(f, b, n + a) && Repeats(f, a + b, n);
    }
  }

  /** The subtractive Euclidean algorithm, carried out on periods. */
  lemma {:induction false} CommonPeriod(f: nat -> int, a: nat, b: nat, q: nat) returns (g: nat, x: nat, y: nat)
    requires a > 0 && b > 0
    requires Period(f, a * q) && Period(f, b * q)
    ensures g > 0 && a == g * x && b == g * y
    ensures Period(f, g * q)
    decreases a + b
  {
    if a == b {
      g, x, y := a, 1, 1;
    } else if a > b {
      assert a * q == (a - b) * q + b * q;
      PeriodDifference(f, (a - b) * q, b * q);
      g, x, y := CommonPeriod(f, a - b, b, q);
      assert g * (x + y) == g * x + g * y;
      x := x + y;
    } else {
      assert b * q == (b - a) * q + a * q;
      PeriodDifference(f, (b - a) * q, a * q);
      g, x, y := CommonPeriod(f, a, b - a, q);
      assert g * (x + y) == g * x + g * y;
      y := x + y;
    }
  }

  // ----- the period is exactly 65535

  lemma FullPeriod(f: nat -> int)
    requires Stream(f)
    ensures Period(f, PERIOD)
  {
    forall i: nat | i < 16 ensures Same(f, 1, 65536, i) {
      var q := Jump65536(f, i);
    }
    AgreeFromStart(f, 1, PERIOD);
  }

  lemma LaterParities(f: nat -> int)
    requires SeedStream(f)
    ensures Odd(f, 16) && Odd(f, 17) && Odd(f, 18) && Odd(f, 19) && !Odd(f, 20)
    ensures !Odd(f, 21) && !Odd(f, 22) && Odd(f, 23) && Odd(f, 24) && !Odd(f, 25)
    ensures Odd(f, 26) && Odd(f, 27) && !Odd(f, 28) && !Odd(f, 29) && !Odd(f, 30)
  {
    SeedParities(f);
    OddFeedback(f, 0); OddFeedback(f, 1); OddFeedback(f, 2); OddFeedback(f, 3); OddFeedback(f, 4);
    OddFeedback(f, 5); OddFeedback(f, 6); OddFeedback(f, 7); OddFeedback(f, 8); OddFeedback(f, 9);
    OddFeedback(f, 10); OddFeedback(f, 11); OddFeedback(f, 12); OddFeedback(f, 13); OddFeedback(f, 14);
  }

  lemma NotPeriod255(f: nat -> int)
    requires SeedStream(f)
    ensures !Period(f, 255)
  {
    SeedParities(f);
    var _ := Jump256(f, 0);
    assert !Repeats(f, 255, 1);
  }

  lemma NotPeriod3855(f: nat -> int)
    requires SeedStream(f)
    ensures !Period(f, 3855)
  {
    SeedParities(f);
    LaterParities(f);
    var _ := Jump4096(f, 17);
    var _ := Jump256(f, 2);
    assert !Repeats(f, 3855, 258);
  }

  lemma NotPeriod13107(f: nat -> int)
    requires SeedStream(f)
    ensures !Period(f, 13107)
  {
    SeedParities(f);
    var _ := Jump17476(f, 0);
    var _ := Jump4369(f, 0);
    assert !Repeats(f, 13107, 4369);
  }

  lemma NotPeriod21845(f: nat -> int)
    requires SeedStream(f)
    ensures !Period(f, 21845)
  {
    SeedParities(f);
    LaterParities(f);
    var _ := Jump21845(f, 3);
    assert !Repeats(f, 21845, 3);
  }

  lemma SmallPrime(p: nat, g: nat, y: nat)
    requires p == 3 || p == 5 || p == 17 || p == 257
    requires p == g * y
    ensures g == 1 || g == p
  {
    if 2 <= g <= 16 { Multiples(p, g, y); }
    if 2 <= y <= 16 { Multiples(p, y, g); }
  }

  lemma Multiples(p: nat, g: nat, y: nat)
    requires p == 3 || p == 5 || p == 17 || p == 257
    requires p == g * y && 2 <= g <= 16
    ensures y == 1
  {
    match g { case 2 => case 3 => case 4 => case 5 => case 6 => case 7 => case 8 => case 9 =>
              case 10 => case 11 => case 12 => case 13 => case 14 => case 15 => case _ => }
  }

  /** A period that is not a multiple of the prime `p` would make 65535 / p a period too. */
  lemma PeriodOfCofactor(f: nat -> int, q: nat, p: nat, cofactor: nat)
    requires Period(f, q) && q > 0 && Stream(f)
    requires p == 3 || p == 5 || p == 17 || p == 257
    requires p * cofactor == PERIOD
    requires q % p != 0
    ensures Period(f, cofactor)
  {
    FullPeriod(f);
    PeriodMultiple(f, q, cofactor);
    Commute(cofactor, q);
    var g, x, y := CommonPeriod(f, q, p, cofactor);
    SmallPrime(p, g, y);
    if g == p {
      Commute(g, x);
      NoFactor(q, p, x);
    }
  }

  lemma Commute(a: nat, b: nat)
    ensures a * b == b * a
  {}

  lemma NoFactor(q: nat, p: nat, x: nat)
    requires p > 0 && q == x * p
    ensures q % p == 0
  {
    UniqueRemainder(q, p, x, 0);
  }

  lemma AllFourPrimes(q: nat)
    requires q % 3 == 0 && q % 5 == 0 && q % 17 == 0 && q % 257 == 0
    ensures q % PERIOD == 0
  {
    Combine(q, q / 3, q / 5, q / 17, q / 257);
  }

  lemma Combine(q: nat, a: nat, b: nat, c: nat, d: nat)
    requires q == 3 * a && q == 5 * b && q == 17 * c && q == 257 * d
    ensures q % PERIOD == 0
  {
    var e := 2 * b - a;
    assert q == 15 * e;
    var f := 8 * e - 9 * c;
    assert q == 255 * f;
    var g := 128 * d - 127 * f;
    assert q == 65535 * g;
  }

  lemma PeriodHasEachPrime(f: nat -> int, q: nat)
    requires SeedStream(f) && Period(f, q) && q > 0
    ensures q % 3 == 0 && q % 5 == 0 && q % 17 == 0 && q % 257 == 0
  {
    if q % 3 != 0 { PeriodOfCofactor(f, q, 3, 21845); NotPeriod21845(f); }
    if q % 5 != 0 { PeriodOfCofactor(f, q, 5, 13107); NotPeriod13107(f); }
    if q % 17 != 0 { PeriodOfCofactor(f, q, 17, 3855); NotPeriod3855(f); }
    if q % 257 != 0 { PeriodOfCofactor(f, q, 257, 255); NotPeriod255(f); }
  }

  lemma PeriodsAreMultiples(f: nat -> int, q: nat)
    requires SeedStream(f)
    ensures Period(f, q) <==> q % PERIOD == 0
  {
    FullPeriod(f);
    if q % PERIOD == 0 {
      PeriodMultiple(f, PERIOD, q / PERIOD);
    } else if Period(f, q) {
      PeriodHasEachPrime(f, q);
      AllFourPrimes(q);
    }
  }

  lemma SameRemainder(m: nat, n: nat)
    requires m <= n
    ensures (n - m) % PERIOD == 0 <==> m % PERIOD == n % PERIOD
  {}

  lemma OutputsRepeatIn(f: nat -> int, m: nat, n: nat)
    requires SeedStream(f) && m <= n
    ensures Value(m) == Value(n) <==> m % PERIOD == n % PERIOD
  {
    EqualOutputsAgree(f, m, n);
    AgreementIsPeriod(f, m, n - m);
    PeriodsAreMultiples(f, n - m);
    SameRemainder(m, n);
  }

  /** Two outputs are equal exactly when their call numbers agree modulo 65535. */
  lemma OutputsRepeat(m: nat, n: nat)
    ensures Value(m) == Value(n) <==> m % PERIOD == n % PERIOD
  {
    SeedStreamExists();
    if m <= n { OutputsRepeatIn(W, m, n); } else { OutputsRepeatIn(W, n, m); }
  }
}
