/** 64-bit division built from the x86 64-by-32 divide instruction (lib/arithmetic.c).
    Machine words are integers with an explicit range; every shift, sum and product that can
    wrap is reduced by `U32`, `U64`, `I32` or `I64`. */
module Division {

  const TWO31: int := 0x8000_0000
  const TWO32: int := 0x1_0000_0000
  const TWO63: int := 0x8000_0000_0000_0000
  const TWO64: int := 0x1_0000_0000_0000_0000

  type uint32 = x: nat | x < TWO32
  type uint64 = x: nat | x < TWO64
  type int32 = x: int | -0x8000_0000 <= x < 0x8000_0000
  type int64 = x: int | -0x8000_0000_0000_0000 <= x < 0x8000_0000_0000_0000

  function U32(x: int): uint32 { x % TWO32 }
  function U64(x: int): uint64 { x % TWO64 }
  function I32(x: int): int32 { if U32(x) < TWO31 then U32(x) else U32(x) - TWO32 }
  function I64(x: int): int64 { if U64(x) < TWO63 then U64(x) else U64(x) - TWO64 }

  /** Values in range are not changed by the cast. */
  lemma FitsI32(x: int)
    ensures -TWO31 <= x < TWO31 ==> I32(x) == x
  {
  }

  /** Unsigned quotient and remainder, rounding down. */
  function Quo(n: nat, d: nat): nat requires d > 0 { n / d }
  function Rem(n: nat, d: nat): nat requires d > 0 { n % d }

  function Pow2(k: nat): (p: nat)
    ensures p >= 1
  {
    if k == 0 then 1 else 2 * Pow2(k - 1)
  }

  lemma {:induction false} Pow2Sum(i: nat, j: nat)
    ensures Pow2(i + j) == Pow2(i) * Pow2(j)
  {
    if i == 0 {
    } else {
      Pow2Sum(i - 1, j);
      MulAssoc(2, Pow2(i - 1), Pow2(j));
    }
  }

  lemma Pow2Values()
    ensures Pow2(0) == 1 && Pow2(1) == 2 && Pow2(2) == 4 && Pow2(4) == 16 && Pow2(8) == 256 && Pow2(16) == 65536
    ensures Pow2(31) == TWO31 && Pow2(32) == TWO32
  {
    assert Pow2(0) == 1 && Pow2(1) == 2 && Pow2(2) == 4 && Pow2(4) == 16;
    assert Pow2(8) == 256 by { Pow2Sum(4, 4); }
    assert Pow2(16) == 65536 by { Pow2Sum(8, 8); }
    assert Pow2(32) == TWO32 by { Pow2Sum(16, 16); }
    assert Pow2(32) == 2 * Pow2(31);
  }

  // ---------- the arithmetic the algorithm rests on ----------

  lemma MulAssoc(a: int, b: int, c: int)
    ensures a * b * c == a * (b * c)
  {
  }

  lemma MulMono(a: int, b: int, c: int)
    requires a <= b && c >= 0
    ensures a * c <= b * c && c * a <= c * b
  {
  }

  lemma MulCancel(a: int, b: int, c: int)
    requires c > 0 && a * c < b * c
    ensures a < b
  {
  }

  lemma MulStrict(a: int, b: int, c: int)
    requires a < b && c > 0
    ensures a * c < b * c
  {
  }

  lemma Distribute(a: int, b: int, c: int)
    ensures (a + b) * c == a * c + b * c
    ensures c * (a + b) == c * a + c * b
  {
  }

  lemma QuoBracket(n: nat, d: nat)
    requires d > 0
    ensures Quo(n, d) * d <= n < (Quo(n, d) + 1) * d
    ensures n == Quo(n, d) * d + Rem(n, d) && Rem(n, d) < d
  {
  }

  /** A quotient is determined by its bracket. */
  lemma QuoIs(n: nat, d: nat, q: nat)
    requires d > 0
    requires q * d <= n < (q + 1) * d
    ensures Quo(n, d) == q
  {
    hide Quo, Rem, U32, U64, Pow2;
    QuoBracket(n, d);
    MulCancel(Quo(n, d), q + 1, d);
    MulCancel(q, Quo(n, d) + 1, d);
  }

  lemma QuoAtMost(n: nat, d: nat)
    requires d > 0
    ensures Quo(n, d) <= n
  {
    hide Quo, Rem, U32, U64, Pow2;
    QuoBracket(n, d);
    MulMono(1, d, Quo(n, d));
  }

  /** Dividing twice is dividing by the product. */
  lemma QuoQuo(n: nat, a: nat, b: nat)
    requires a > 0 && b > 0
    ensures a * b > 0 && Quo(Quo(n, a), b) == Quo(n, a * b)
  {
    hide Quo, Rem, U32, U64, Pow2;
    var q := Quo(n, a);
    var p := Quo(q, b);
    QuoBracket(n, a);
    QuoBracket(q, b);
    MulStrict(0, a, b);
    MulMono(p * b, q, a);
    MulMono(q + 1, (p + 1) * b, a);
    Regroup(p, b, a);
    Regroup(p + 1, b, a);
    QuoIs(n, a * b, p);
  }

  lemma Regroup(p: int, b: int, a: int)
    ensures p * b * a == p * (a * b)
  {
    MulAssoc(p, b, a);
  }

  /** Truncating a divisor D to a multiple T of K overestimates the quotient by at most one, when
      T has 31 significant bits above K: the error bound behind the estimate-and-correct step. */
  lemma EstimateWithinOne(n: nat, d: nat, t: nat, k: nat)
    requires n < TWO64
    requires 0 < k && k * TWO31 <= t <= d < t + k
    ensures t > 0 && Quo(n, d) <= Quo(n, t) <= Quo(n, d) + 1
  {
    hide Quo, Rem, U32, U64, Pow2;
    MulStrict(0, k, TWO31);
    var q := Quo(n, t);
    QuoBracket(n, t);
    QuoBracket(n, d);
    // a smaller divisor gives a larger quotient
    MulMono(t, d, Quo(n, d));
    MulCancel(Quo(n, d), q + 1, t);
    // the excess (q - 1) * (d - t) fits inside t
    if q > 0 {
      ExcessFits(q, t, d - t, k);
      Excess(q, t, d - t);
      assert (q - 1) * d <= n;
      MulCancel(q - 1, Quo(n, d) + 1, d);
    }
  }

  lemma Excess(q: int, t: int, e: int)
    ensures (q - 1) * (t + e) == q * t - t + (q - 1) * e
  {
    Distribute(t, e, q - 1);
    Distribute(q, -1, t);
  }

  lemma ExcessFits(q: nat, t: nat, e: nat, k: nat)
    requires 0 < q && q * t < TWO64 && 0 < k && k * TWO31 <= t && e < k
    ensures (q - 1) * e <= t
  {
    hide Quo, Rem, U32, U64, Pow2;
    // q*e*t = (q*t)*e <= 2^64 * (k-1) <= 2^62 * k^2 <= t^2
    ScaledBound(q, t, e, k);
    SquareLower(t, k);
    NoRootsBelow(k);
    MulStrict(0, k, TWO31);
    Distribute(q, -1, e);
    assert (q * e) * t <= t * t;
    if t < (q - 1) * e {
      MulStrict(t, q * e, t);
      assert false;
    }
  }

  lemma ScaledBound(q: nat, t: nat, e: nat, k: nat)
    requires q * t < TWO64 && e < k
    ensures (q * e) * t <= TWO64 * (k - 1)
  {
    hide Quo, Rem, U32, U64, Pow2;
    MulMono(q * t, TWO64, e);
    MulMono(e, k - 1, TWO64);
    assert (q * e) * t == (q * t) * e by { MulAssoc(q, e, t); MulAssoc(q, t, e); Commute(e, t); }
  }

  lemma Commute(a: int, b: int)
    ensures a * b == b * a
  {
  }

  lemma NoRootsBelow(k: int)
    ensures TWO64 * (k - 1) <= k * k * (TWO31 * TWO31)
  {
    assert (k - 2) * (k - 2) >= 0;
    assert (k - 2) * (k - 2) == k * k - 4 * k + 4;
  }

  lemma SquareLower(t: nat, k: nat)
    requires k * TWO31 <= t
    ensures k * k * (TWO31 * TWO31) <= t * t
  {
    var s := k * TWO31;
    MulMono(s, t, s);
    MulMono(s, t, t);
    assert s * s == k * k * (TWO31 * TWO31);
  }

  // ---------- word-sized values that do not wrap ----------

  lemma FitsU64(x: int)
    requires 0 <= x < TWO64
    ensures U64(x) == x
  {
  }

  lemma Halves(n: uint64)
    ensures n == Quo(n, TWO32) * TWO32 + U32(n) && Quo(n, TWO32) < TWO32
  {
  }

  // ---------- the routines ----------

  /** The DIVL instruction: it traps unless the quotient fits 32 bits, so callers must ensure that. */
  method Divl(n: uint64, d: uint32) returns (q: uint32)
    requires d != 0
    requires Quo(n, d) < TWO32
    ensures q == Quo(n, d)
  {
    q := Quo(n, d);
  }

  /** Leading zero count: shifting X left by it brings the top set bit to position 31. */
  method Nlz(x0: uint32) returns (n: nat)
    requires x0 != 0
    ensures n <= 31
    ensures TWO31 <= x0 * Pow2(n) < TWO32
  {
    hide Pow2, U32;
    Pow2Values();
    n := 0;
    var x: uint32 := x0;
    if x <= 0x0000FFFF {
      ShiftStep(x0, n, x, 16, 65536);
      n := n + 16;
      x := U32(x * 65536);
    }
    if x <= 0x00FFFFFF {
      ShiftStep(x0, n, x, 8, 256);
      n := n + 8;
      x := U32(x * 256);
    }
    if x <= 0x0FFFFFFF {
      ShiftStep(x0, n, x, 4, 16);
      n := n + 4;
      x := U32(x * 16);
    }
    if x <= 0x3FFFFFFF {
      ShiftStep(x0, n, x, 2, 4);
      n := n + 2;
      x := U32(x * 4);
    }
    if x <= 0x7FFFFFFF {
      ShiftStep(x0, n, x, 1, 2);
      n := n + 1;
    }
  }

  /** One halving of the search: X holds X0 shifted by N, and K more bits still fit. */
  lemma ShiftStep(x0: uint32, n: nat, x: uint32, k: nat, p: nat)
    requires x == x0 * Pow2(n) && p == Pow2(k)
    requires x * p < TWO32
    ensures U32(x * p) == x * p == x0 * Pow2(n + k)
  {
    Pow2Sum(n, k);
    MulAssoc(x0, Pow2(n), Pow2(k));
  }

  /** Schoolbook step: the high digit's remainder never makes DIVL trap. */
  lemma SchoolbookStep(n: uint64, d: uint32)
    requires d != 0
    ensures var n1 := Quo(n, TWO32);
            var m := U64(TWO32 * Rem(n1, d) + U32(n));
            && Quo(m, d) < TWO32
            && U64(Quo(m, d) + U64(TWO32 * Quo(n1, d))) == Quo(n, d)
  {
    hide Quo, Rem, U32, U64, Pow2;
    var n1, n0 := Quo(n, TWO32), U32(n);
    var m := TWO32 * Rem(n1, d) + n0;
    Halves(n);
    QuoBracket(n1, d);
    LowDigit(m, Rem(n1, d), n0, d);
    FitsU64(m);
    var low, high := Quo(m, d), Quo(n1, d);
    JoinDigits(n, m, n1, n0, d, Rem(n1, d), low, high);
    QuoAtMost(n, d);
    FitsU64(TWO32 * high);
    FitsU64(low + TWO32 * high);
  }

  lemma LowDigit(m: nat, r: nat, n0: uint32, d: uint32)
    requires r < d && m == TWO32 * r + n0
    ensures m < TWO64 && Quo(m, d) < TWO32
  {
    hide Quo, Rem, U32, U64, Pow2;
    QuoBracket(m, d);
    MulCancel(Quo(m, d), TWO32, d);
  }

  lemma JoinDigits(n: nat, m: nat, n1: nat, n0: uint32, d: nat, r: nat, low: nat, high: nat)
    requires d > 0 && n == n1 * TWO32 + n0 && m == TWO32 * r + n0
    requires n1 == high * d + r && low == Quo(m, d)
    ensures Quo(n, d) == low + TWO32 * high
  {
    hide Quo, Rem, U32, U64, Pow2;
    QuoBracket(m, d);
    var q := low + TWO32 * high;
    Distribute(low, TWO32 * high, d);
    Distribute(q, 1, d);
    Distribute(low, 1, d);
    MulAssoc(TWO32, high, d);
    assert n == (TWO32 * high) * d + m;
    QuoIs(n, d, q);
  }

  /** What the normalised estimate is: a division by the divisor with its low 32-S bits cleared. */
  lemma NormalisedEstimate(n: uint64, d: uint64, s: nat)
    requires s <= 31
    requires TWO31 <= Quo(d, TWO32) * Pow2(s) < TWO32
    ensures var v := Quo(U64(d * Pow2(s)), TWO32);
            && TWO31 <= v < TWO32
            && Quo(Quo(n, 2), v) < TWO32
            && Quo(n, d) <= Quo(Quo(Quo(n, 2), v), Pow2(31 - s)) <= Quo(n, d) + 1
  {
    hide Quo, Rem, U32, U64, Pow2;
    var p, k, h := Pow2(s), Pow2(32 - s), Pow2(31 - s);
    ShiftSplit(s);
    ShiftedDivisor(d, p, k);
    FitsU64(d * p);
    var v := Quo(d * p, TWO32);
    EstimateFits(n, v);
    QuoQuo(n, 2, v);
    QuoQuo(n, 2 * v, h);
    assert 2 * v * h == v * k by { MulAssoc(2, v, h); MulAssoc(v, 2, h); Commute(2, v); MulAssoc(2, h, v); Commute(v, h); Commute(v, 2 * h); }
    EstimateWithinOne(n, d, v * k, k);
  }

  lemma ShiftSplit(s: nat)
    requires s <= 31
    ensures Pow2(s) * Pow2(32 - s) == TWO32 && 2 * Pow2(31 - s) == Pow2(32 - s)
  {
    Pow2Values();
    Pow2Sum(s, 32 - s);
  }

  lemma EstimateFits(n: uint64, v: nat)
    requires TWO31 <= v
    ensures Quo(Quo(n, 2), v) < TWO32
  {
    hide Quo, Rem, U32, U64, Pow2;
    QuoBracket(n, 2);
    var h := Quo(n, 2);
    QuoBracket(h, v);
    MulMono(TWO31, v, Quo(h, v));
    MulCancel(Quo(h, v), TWO32, TWO31);
  }

  /** Shifting D left by S (P is 2^S, K is 2^(32-S)) and dropping the low word rounds D down to a
      multiple of K. */
  lemma ShiftedDivisor(d: uint64, p: nat, k: nat)
    requires p > 0 && k > 0 && p * k == TWO32
    requires TWO31 <= Quo(d, TWO32) * p < TWO32
    ensures d * p < TWO64
    ensures var v := Quo(d * p, TWO32); TWO31 <= v < TWO32 && k * TWO31 <= v * k <= d < v * k + k
  {
    hide Quo, Rem, U32, U64, Pow2;
    QuoBracket(d, TWO32);
    var d1 := Quo(d, TWO32);
    NoCarryOut(d1, p, k);
    Regroup(d1, TWO32, p);
    Regroup(d1 + 1, TWO32, p);
    MulMono(d1 * TWO32, d, p);
    MulStrict(d, (d1 + 1) * TWO32, p);
    Commute(p, TWO32);
    ShiftBounds(d * p, d1, p);
    var v := Quo(d * p, TWO32);
    QuoBracket(d * p, TWO32);
    MulCancel(TWO31, v + 1, TWO32);
    MulCancel(v, TWO32, TWO32);
    // divide the bracket v*k*p <= d*p < (v+1)*k*p by p
    Regroup(v, k, p);
    Regroup(v + 1, k, p);
    Distribute(v, 1, k);
    MulCancel(v * k, d + 1, p);
    MulCancel(d, v * k + k, p);
    MulMono(TWO31, v, k);
  }

  lemma ShiftBounds(x: nat, d1: nat, p: nat)
    requires d1 * (p * TWO32) <= x < (d1 + 1) * (p * TWO32)
    requires TWO31 <= d1 * p && d1 * p + p <= TWO32
    ensures TWO31 * TWO32 <= x < TWO64
  {
    hide Quo, Rem, U32, U64, Pow2;
    MulAssoc(d1, p, TWO32);
    MulAssoc(d1 + 1, p, TWO32);
    Distribute(d1, 1, p);
  }

  /** D1 * P is a multiple of P below P * K, so it leaves room for one more P. */
  lemma NoCarryOut(d1: nat, p: nat, k: nat)
    requires p > 0 && p * k == TWO32 && d1 * p < TWO32
    ensures d1 * p + p <= TWO32
  {
    hide Quo, Rem, U32, U64, Pow2;
    Commute(p, k);
    MulCancel(d1, k, p);
    MulMono(d1 + 1, k, p);
    Distribute(d1, 1, p);
  }

  /** Unsigned 64-bit quotient, exact for every N and every nonzero D. */
  method Udiv64(n: uint64, d: uint64) returns (q: uint64)
    requires d != 0
    ensures q == Quo(n, d)
  {
    hide Quo, Rem, U32, U64, Pow2;
    HighWord(d);
    if Quo(d, TWO32) == 0 {
      var n1, n0, d0 := Quo(n, TWO32), U32(n), U32(d);
      SchoolbookStep(n, d0);
      var low := Divl(U64(TWO32 * Rem(n1, d0) + n0), d0);
      q := U64(low + U64(TWO32 * Quo(n1, d0)));
    } else if n < d {
      SmallQuotient(n, d);
      q := 0;
    } else {
      var s := Nlz(Quo(d, TWO32));
      EstimateAndCorrect(n, d, s);
      var est := Divl(Quo(n, 2), Quo(U64(d * Pow2(s)), TWO32));
      q := Quo(est, Pow2(31 - s));
      q := if U64(n - U64(U64(q - 1) * d)) < d then q - 1 else q;
    }
  }

  lemma HighWord(d: uint64)
    ensures Quo(d, TWO32) < TWO32
    ensures Quo(d, TWO32) == 0 ==> U32(d) == d
    ensures Quo(d, TWO32) != 0 ==> d >= TWO32
  {
  }

  lemma SmallQuotient(n: nat, d: nat)
    requires n < d
    ensures Quo(n, d) == 0
  {
    QuoIs(n, d, 0);
  }

  lemma EstimateAndCorrect(n: uint64, d: uint64, s: nat)
    requires TWO32 <= d <= n && s <= 31
    requires TWO31 <= Quo(d, TWO32) * Pow2(s) < TWO32
    ensures var v := Quo(U64(d * Pow2(s)), TWO32);
            && 0 < v < TWO32 && Quo(n, 2) < TWO64 && Quo(Quo(n, 2), v) < TWO32
            && var q := Quo(Quo(Quo(n, 2), v), Pow2(31 - s));
            && 1 <= q < TWO64
            && (if U64(n - U64(U64(q - 1) * d)) < d then q - 1 else q) == Quo(n, d)
  {
    hide Quo, Rem, U32, U64, Pow2;
    NormalisedEstimate(n, d, s);
    QuoAtMost(n, 2);
    var q := Quo(Quo(Quo(n, 2), Quo(U64(d * Pow2(s)), TWO32)), Pow2(31 - s));
    CorrectionIsExact(n, d, q);
  }

  /** The final test subtracts in 64 bits; with an estimate within one it never wraps. */
  lemma CorrectionIsExact(n: uint64, d: uint64, q: nat)
    requires TWO32 <= d <= n
    requires Quo(n, d) <= q <= Quo(n, d) + 1
    ensures 1 <= q < TWO64
    ensures (if U64(n - U64(U64(q - 1) * d)) < d then q - 1 else q) == Quo(n, d)
  {
    hide Quo, Rem, U32, U64, Pow2;
    QuoBracket(n, d);
    var x := Quo(n, d);
    Distribute(x, 1, d);
    MulMono(TWO32, d, x);
    MulCancel(x, TWO32, TWO32);
    MulCancel(1, x + 1, d);
    Distribute(q, -1, d);
    MulMono(0, q - 1, d);
    MulMono(q - 1, x, d);
    FitsU64(q - 1);
    FitsU64((q - 1) * d);
    FitsU64(n - (q - 1) * d);
  }

  /** Unsigned remainder; the C function returns only 32 bits of it. */
  method Umod64(n: uint64, d: uint64) returns (r: uint32)
    requires d != 0
    ensures r == U32(Rem(n, d))
  {
    hide Quo, Rem, U32, U64, Pow2;
    var q := Udiv64(n, d);
    QuoBracket(n, d);
    Commute(d, q);
    FitsU64(d * q);
    FitsU64(n - d * q);
    r := U32(U64(n - U64(d * q)));
  }

  /** The documented promise, "returns the remainder", holds for every dividend exactly when the
      divisor is at most 2^32. */
  lemma UmodExactIff(d: uint64)
    requires d != 0
    ensures (forall n: uint64 :: U32(Rem(n, d)) == Rem(n, d)) <==> d <= TWO32
  {
    if d <= TWO32 {
      forall n: uint64 ensures U32(Rem(n, d)) == Rem(n, d) {
        RemFitsU32(n, d);
      }
    } else {
      RemOfSmaller(TWO32, d);
      assert U32(Rem(TWO32, d)) != Rem(TWO32, d);
    }
  }

  lemma RemFitsU32(n: nat, d: nat)
    requires 0 < d <= TWO32
    ensures U32(Rem(n, d)) == Rem(n, d)
  {
    hide Quo, Rem;
    QuoBracket(n, d);
  }

  lemma RemOfSmaller(n: nat, d: nat)
    requires n < d
    ensures Rem(n, d) == n
  {
    hide Quo, Rem;
    SmallQuotient(n, d);
    QuoBracket(n, d);
  }

  // ---------- signed division ----------

  function Abs(x: int): nat { if x >= 0 then x else -x }

  /** Division rounding toward zero, and the remainder that goes with it. */
  function TruncDiv(n: int, d: int): int
    requires d != 0
  {
    if (n < 0) == (d < 0) then Quo(Abs(n), Abs(d)) else -(Quo(Abs(n), Abs(d)) as int)
  }

  function TruncRem(n: int, d: int): int
    requires d != 0
  {
    if n < 0 then -(Rem(Abs(n), Abs(d)) as int) else Rem(Abs(n), Abs(d))
  }

  /** The pair is the C one: it rebuilds N, the remainder is smaller than D and has N's sign. */
  lemma TruncSpec(n: int, d: int)
    requires d != 0
    ensures n == d * TruncDiv(n, d) + TruncRem(n, d)
    ensures Abs(TruncRem(n, d)) < Abs(d)
    ensures TruncRem(n, d) != 0 ==> (TruncRem(n, d) < 0 <==> n < 0)
  {
    hide Quo, Rem;
    QuoBracket(Abs(n), Abs(d));
    var q := Quo(Abs(n), Abs(d));
    Signs(q, d);
  }

  lemma Signs(q: int, d: int)
    ensures q * d == d * q == (-d) * (-q)
    ensures q * (-d) == (-d) * q == d * (-q) == -(q * d)
  {
  }

  lemma AbsWord(n: int64)
    ensures (if n >= 0 then U64(n) else U64(-(U64(n) as int))) == Abs(n)
  {
  }

  lemma NegWord(q: uint64)
    ensures I64(-(I64(q) as int)) == I64(-(q as int))
  {
  }

  /** Signed quotient: truncation toward zero, reduced to 64 bits. */
  method Sdiv64(n: int64, d: int64) returns (q: int64)
    requires d != 0
    ensures q == I64(TruncDiv(n, d))
  {
    hide Quo, Rem, U64, I64, Pow2;
    AbsWord(n);
    AbsWord(d);
    var nAbs: uint64 := if n >= 0 then U64(n) else U64(-(U64(n) as int));
    var dAbs: uint64 := if d >= 0 then U64(d) else U64(-(U64(d) as int));
    var qAbs := Udiv64(nAbs, dAbs);
    NegWord(qAbs);
    q := if (n < 0) == (d < 0) then I64(qAbs) else I64(-(I64(qAbs) as int));
  }

  lemma TruncDivRange(n: int64, d: int64)
    requires d != 0
    ensures -TWO63 <= TruncDiv(n, d) <= TWO63
    ensures TruncDiv(n, d) == TWO63 <==> n == -TWO63 && d == -1
  {
    hide Quo, Rem;
    QuoAtMost(Abs(n), Abs(d));
    QuoBracket(Abs(n), Abs(d));
    var q := Quo(Abs(n), Abs(d));
    if Abs(d) >= 2 {
      MulMono(2, Abs(d), q);
    } else {
      assert Abs(d) == 1;
    }
  }

  /** Sdiv64 returns the true truncated quotient in every case but the one overflow. */
  lemma SdivExactIff(n: int64, d: int64)
    requires d != 0
    ensures I64(TruncDiv(n, d)) == TruncDiv(n, d) <==> !(n == -TWO63 && d == -1)
  {
    hide Quo, Rem, TruncDiv;
    TruncDivRange(n, d);
  }

  /** Signed remainder; the C function returns only 32 bits of it. */
  method Smod64(n: int64, d: int64) returns (r: int32)
    requires d != 0
    ensures r == I32(TruncRem(n, d))
  {
    hide Quo, Rem, U64, I64, I32, TruncDiv, TruncRem, Abs;
    var q := Sdiv64(n, d);
    RemainderStep(n, d);
    r := I32(I64(n - I64(d * q)));
  }

  lemma FitsI64(x: int)
    requires -TWO63 <= x < TWO63
    ensures I64(x) == x
  {
  }

  lemma RemainderStep(n: int64, d: int64)
    requires d != 0
    ensures I64(n - I64(d * I64(TruncDiv(n, d)))) == TruncRem(n, d)
  {
    hide Quo, Rem, U64, I64, TruncDiv, TruncRem;
    SdivExactIff(n, d);
    TruncSpec(n, d);
    if n == -TWO63 && d == -1 {
      OverflowRemainder();
    } else {
      ProductRange(n, d);
      FitsI64(d * TruncDiv(n, d));
      FitsI64(TruncRem(n, d));
    }
  }

  lemma OverflowRemainder()
    ensures I64(-TWO63 - I64(-1 * I64(TruncDiv(-TWO63, -1)))) == 0 == TruncRem(-TWO63, -1)
  {
    assert TruncDiv(-TWO63, -1) == TWO63;
    assert I64(TWO63) == -TWO63;
  }

  /** D * TruncDiv(N, D) lies between 0 and N. */
  lemma ProductRange(n: int64, d: int64)
    requires d != 0
    ensures -TWO63 <= d * TruncDiv(n, d)
    ensures !(n == -TWO63 && d == -1) ==> d * TruncDiv(n, d) < TWO63
  {
    hide Quo, Rem, TruncDiv;
    TruncSpec(n, d);
    QuoBracket(Abs(n), Abs(d));
  }

  lemma RemFitsI32(n: int64, d: int64)
    requires d != 0 && Abs(d) <= TWO31
    ensures I32(TruncRem(n, d)) == TruncRem(n, d)
  {
    hide Quo, Rem, TruncDiv, TruncRem, I32;
    TruncSpec(n, d);
    FitsI32(TruncRem(n, d));
  }

  /** The documented promise holds for every dividend exactly when |D| <= 2^31. */
  lemma SmodExactIff(d: int64)
    requires d != 0
    ensures (forall n: int64 :: I32(TruncRem(n, d)) == TruncRem(n, d)) <==> Abs(d) <= TWO31
  {
    hide Quo, Rem, TruncDiv, TruncRem;
    if Abs(d) <= TWO31 {
      forall n: int64 ensures I32(TruncRem(n, d)) == TruncRem(n, d) {
        RemFitsI32(n, d);
      }
    } else {
      SmallDividend(d);
      assert I32(TruncRem(TWO31, d)) != TruncRem(TWO31, d);
    }
  }

  lemma SmallDividend(d: int64)
    requires Abs(d) > TWO31
    ensures TruncRem(TWO31, d) == TWO31
  {
    hide Quo, Rem;
    RemOfSmaller(TWO31, Abs(d));
  }
}
