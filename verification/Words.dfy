/** 64-bit registers, and the two loops of driver/ibs-utils.c that spread a quantity over the set
    positions of a mask and collect it again.

    A register is modelled by the set of positions of its one bits: `|` is union, `& ~` is
    difference, and a bit test is membership. `Digits` and `Num` go between registers and numbers. */
module Words {
  import opened Arith

  type Word = w: set<nat> | forall i :: i in w ==> i < 64

  predicate Within(i: nat, lo: nat, hi: nat) { lo <= i < hi }

  /** Positions lo to hi - 1. */
  function Field(lo: nat, hi: nat): (w: Word)
    requires hi <= 64
    ensures forall i :: i in w <==> lo <= i < hi
  {
    set i: nat | lo <= i < hi && Within(i, lo, hi)
  }

  /** How many positions below `n` are set in `fmt`; Rank(fmt, 64) is its population count. */
  function Rank(fmt: Word, n: nat): nat {
    if n == 0 then 0 else Rank(fmt, n - 1) + if n - 1 in fmt then 1 else 0
  }

  /** Position i of `fmt` receives the bit of `qty` whose number is i's rank in `fmt`. */
  function Scatter(qty: Word, fmt: Word): (reg: Word)
    ensures reg <= fmt
  {
    set i | i in fmt && Rank(fmt, i) in qty
  }

  /** The inverse: bit k of the result is the register bit at the position of rank k in `fmt`. */
  function Gather(reg: Word, fmt: Word): (qty: Word) {
    RanksFit(fmt);
    set i | i in fmt && i in reg :: Rank(fmt, i)
  }

  // ----- the loops

  method ScatterBits(qty: Word, fmt: Word) returns (reg: Word)
    ensures reg == Scatter(qty, fmt)
  {
    reg := {};
    var qtyPos, fmtPos := 0, 0;
    for i := 0 to 64
      invariant fmtPos == i && qtyPos == Rank(fmt, i)
      invariant reg == set p | p in Scatter(qty, fmt) && p < i
    {
      if fmtPos in fmt {
        if qtyPos in qty {
          reg := reg + {fmtPos};
        }
        qtyPos := qtyPos + 1;
      }
      fmtPos := fmtPos + 1;
    }
  }

  method GatherBits(reg: Word, fmt: Word) returns (qty: Word)
    ensures qty == Gather(reg, fmt)
  {
    qty := {};
    var qtyPos, fmtPos := 0, 0;
    for i := 0 to 64
      invariant fmtPos == i && qtyPos == Rank(fmt, i)
      invariant qty == set p | p in fmt && p in reg && p < i :: Rank(fmt, p)
    {
      RankBound(fmt, i);
      if fmtPos in fmt {
        if fmtPos in reg {
          qty := qty + {qtyPos};
        }
        qtyPos := qtyPos + 1;
      }
      fmtPos := fmtPos + 1;
    }
  }

  // ----- ranks

  lemma {:induction false} RankBound(fmt: Word, n: nat)
    ensures Rank(fmt, n) <= n
  {
    if n > 0 { RankBound(fmt, n - 1); }
  }

  lemma RanksFit(fmt: Word)
    ensures forall i :: i in fmt ==> Rank(fmt, i) < 64
  {
    forall i | i in fmt ensures Rank(fmt, i) < 64 { RankBound(fmt, i); }
  }

  lemma {:induction false} RankGrows(fmt: Word, i: nat, j: nat)
    requires i < j
    ensures Rank(fmt, i) <= Rank(fmt, j)
    ensures i in fmt ==> Rank(fmt, i) < Rank(fmt, j)
  {
    if i < j - 1 { RankGrows(fmt, i, j - 1); }
  }

  lemma SameRank(fmt: Word, i: nat, j: nat)
    requires i in fmt && j in fmt && Rank(fmt, i) == Rank(fmt, j)
    ensures i == j
  {
    if i < j { RankGrows(fmt, i, j); }
    if j < i { RankGrows(fmt, j, i); }
  }

  /** Every rank below the population count is the rank of some set position. */
  lemma {:induction false} Select(fmt: Word, n: nat, k: nat) returns (i: nat)
    requires k < Rank(fmt, n)
    ensures i < n && i in fmt && Rank(fmt, i) == k
  {
    if k == Rank(fmt, n - 1) { i := n - 1; } else { i := Select(fmt, n - 1, k); }
  }

  /** Membership in a gathered quantity, by position. */
  lemma GatherAt(reg: Word, fmt: Word, i: nat)
    requires i in fmt
    ensures Rank(fmt, i) in Gather(reg, fmt) <==> i in reg
  {
    if Rank(fmt, i) in Gather(reg, fmt) {
      var j :| j in fmt && j in reg && Rank(fmt, j) == Rank(fmt, i);
      SameRank(fmt, i, j);
    }
  }

  // ----- round trips

  /** What comes back from a field is what was put there, cut to the field's width. */
  lemma GatherOfScatter(qty: Word, fmt: Word)
    ensures Gather(Scatter(qty, fmt), fmt) == set k | k in qty && k < Rank(fmt, 64)
  {
    var back := Gather(Scatter(qty, fmt), fmt);
    forall k | k in back ensures k in qty && k < Rank(fmt, 64) {
      var i :| i in fmt && i in Scatter(qty, fmt) && Rank(fmt, i) == k;
      RankGrows(fmt, i, 64);
    }
    forall k | k in qty && k < Rank(fmt, 64) ensures k in back {
      var i := Select(fmt, 64, k);
      GatherAt(Scatter(qty, fmt), fmt, i);
    }
  }

  lemma ScatterOfGather(reg: Word, fmt: Word)
    ensures Scatter(Gather(reg, fmt), fmt) == reg * fmt
  {
    forall i | i in fmt ensures i in Scatter(Gather(reg, fmt), fmt) <==> i in reg {
      GatherAt(reg, fmt, i);
    }
  }

  /** Writing one field of a register: the field reads back, every disjoint field is untouched. */
  lemma WriteField(reg: Word, fmt: Word, qty: Word, other: Word)
    requires fmt !! other
    ensures Gather((reg - fmt) + Scatter(qty, fmt), fmt) == set k | k in qty && k < Rank(fmt, 64)
    ensures Gather((reg - fmt) + Scatter(qty, fmt), other) == Gather(reg, other)
  {
    var after := (reg - fmt) + Scatter(qty, fmt);
    GatherOfScatter(qty, fmt);
    GatherDepends(after, Scatter(qty, fmt), fmt);
    GatherDepends(after, reg, other);
  }

  lemma GatherDepends(a: Word, b: Word, fmt: Word)
    requires a * fmt == b * fmt
    ensures Gather(a, fmt) == Gather(b, fmt)
  {
    assert forall i :: i in fmt ==> (i in a <==> i in a * fmt) && (i in b <==> i in b * fmt);
  }

  // ----- registers as numbers

  function Pow2(n: nat): (p: nat)
    ensures p > 0
  {
    if n == 0 then 1 else 2 * Pow2(n - 1)
  }

  /** The number written by the positions below `n`. */
  function Num(w: Word, n: nat): nat {
    if n == 0 then 0 else Num(w, n - 1) + if n - 1 in w then Pow2(n - 1) else 0
  }

  /** `v >> n`. */
  function Shr(v: nat, n: nat): nat {
    if n == 0 then v else Shr(v / 2, n - 1)
  }

  predicate Digit(v: nat, i: nat) { Shr(v, i) % 2 == 1 }

  /** The binary digits of `v`, cut to 64 positions as an unsigned long is. */
  function Digits(v: nat): Word {
    set i | i in Field(0, 64) && Digit(v, i)
  }

  lemma {:induction false} ShrAdd(v: nat, m: nat, n: nat)
    ensures Shr(v, m + n) == Shr(Shr(v, m), n)
    decreases m
  {
    if m > 0 { ShrAdd(v / 2, m - 1, n); }
  }

  lemma {:induction false} NumBound(w: Word, n: nat)
    ensures Num(w, n) < Pow2(n)
  {
    if n > 0 { NumBound(w, n - 1); }
  }

  lemma {:induction false} DigitsAndRest(v: nat, n: nat)
    requires n <= 64
    ensures v == Shr(v, n) * Pow2(n) + Num(Digits(v), n)
  {
    if n > 0 {
      DigitsAndRest(v, n - 1);
      ShrAdd(v, n - 1, 1);
      CarryDigit(Shr(v, n - 1), Pow2(n - 1));
    }
  }

  lemma CarryDigit(h: nat, p: nat)
    ensures h * p == (h / 2) * (2 * p) + if h % 2 == 1 then p else 0
  {
    assert h == 2 * (h / 2) + h % 2;
    OneMore(2 * (h / 2), p);
  }

  lemma NumOfDigits(v: nat, n: nat)
    requires n <= 64
    ensures Num(Digits(v), n) == v % Pow2(n)
  {
    DigitsAndRest(v, n);
    NumBound(Digits(v), n);
    UniqueRemainder(v, Pow2(n), Shr(v, n), Num(Digits(v), n));
  }

  lemma {:induction false} NumOfLowBits(w: Word, low: Word, k: nat, n: nat)
    requires low == set i | i in w && i < k
    requires k <= n
    ensures Num(low, n) == Num(w, k)
  {
    if n > k { NumOfLowBits(w, low, k, n - 1); } else { NumAgrees(w, low, k); }
  }

  lemma {:induction false} NumOfField(lo: nat, hi: nat, n: nat)
    requires lo <= hi <= 64 && n <= 64
    ensures Num(Field(lo, hi), n) == if n <= lo then 0 else if n <= hi then Pow2(n) - Pow2(lo) else Pow2(hi) - Pow2(lo)
  {
    if n > 0 { NumOfField(lo, hi, n - 1); }
  }

  lemma {:induction false} NumOfUnion(a: Word, b: Word, n: nat)
    requires a !! b
    ensures Num(a + b, n) == Num(a, n) + Num(b, n)
  {
    if n > 0 { NumOfUnion(a, b, n - 1); }
  }

  lemma NumOfEmpty(w: Word, n: nat)
    requires w == {}
    ensures Num(w, n) == 0
  {}

  lemma {:induction false} NumAgrees(a: Word, b: Word, n: nat)
    requires forall i: nat :: i < n ==> (i in a <==> i in b)
    ensures Num(a, n) == Num(b, n)
  {
    if n > 0 { NumAgrees(a, b, n - 1); }
  }

  /** In numbers: a field of k positions returns the stored quantity modulo 2^k. */
  lemma FieldRoundTrip(reg: Word, v: nat, fmt: Word)
    ensures Num(Gather((reg - fmt) + Scatter(Digits(v), fmt), fmt), 64) == v % Pow2(Rank(fmt, 64))
  {
    WriteField(reg, fmt, Digits(v), {});
    RankBound(fmt, 64);
    NumOfLowBits(Digits(v), Gather((reg - fmt) + Scatter(Digits(v), fmt), fmt), Rank(fmt, 64), 64);
    NumOfDigits(v, Rank(fmt, 64));
  }

  // ----- parts of a register as numbers

  /** The `width` positions from `lo` on, moved down to position 0: a C bit field. */
  function Slice(reg: Word, lo: nat, width: nat): (w: Word)
    requires width <= 64
    ensures forall i: nat :: i in w <==> i < width && lo + i in reg
  {
    set i | i in Field(0, width) && lo + i in reg
  }

  /** A bit field of the digits of v is v shifted down and cut to the field's width. */
  lemma SliceOfDigits(v: nat, lo: nat, width: nat)
    requires lo + width <= 64
    ensures Num(Slice(Digits(v), lo, width), width) == Shr(v, lo) % Pow2(width)
  {
    var u := Shr(v, lo);
    forall i: nat | i < width ensures i in Slice(Digits(v), lo, width) <==> i in Digits(u) {
      ShrAdd(v, lo, i);
    }
    NumAgrees(Slice(Digits(v), lo, width), Digits(u), width);
    NumOfDigits(u, width);
  }

  /** Registers that write the same number are the same. */
  lemma {:induction false} NumInjective(a: Word, b: Word, n: nat)
    requires Num(a, n) == Num(b, n)
    ensures forall i: nat :: i < n ==> (i in a <==> i in b)
  {
    if n > 0 {
      NumBound(a, n - 1);
      NumBound(b, n - 1);
      assert n - 1 in a <==> n - 1 in b;
      NumInjective(a, b, n - 1);
    }
  }

  /** A field's number determines the field's bits. */
  lemma FieldInjective(a: Word, b: Word, fmt: Word)
    ensures Num(Gather(a, fmt), 64) == Num(Gather(b, fmt), 64) <==> a * fmt == b * fmt
  {
    if a * fmt == b * fmt { GatherDepends(a, b, fmt); }
    if Num(Gather(a, fmt), 64) == Num(Gather(b, fmt), 64) {
      NumInjective(Gather(a, fmt), Gather(b, fmt), 64);
      assert Gather(a, fmt) == Gather(b, fmt);
      ScatterOfGather(a, fmt);
      ScatterOfGather(b, fmt);
    }
  }
}
