/** The bitwise operators of C and Python on non-negative integers, defined bit by bit,
    and the arithmetic that the program relies on when it masks, shifts and merges words. */
module Bits {

  function Pow2(k: nat): (p: nat)
    ensures p > 0
  {
    if k == 0 then 1 else 2 * Pow2(k - 1)
  }

  /** `a & b` */
  function And(a: nat, b: nat): (r: nat)
    ensures r <= a && r <= b
  {
    if a == 0 || b == 0 then 0 else 2 * And(a / 2, b / 2) + (if a % 2 == 1 && b % 2 == 1 then 1 else 0)
  }

  /** `a | b` */
  function Or(a: nat, b: nat): nat
  {
    if a == 0 then b
    else if b == 0 then a
    else 2 * Or(a / 2, b / 2) + (if a % 2 == 1 || b % 2 == 1 then 1 else 0)
  }

  /** `a >> k` */
  function Shr(a: nat, k: nat): nat
  {
    if k == 0 then a else Shr(a / 2, k - 1)
  }

  /** `a << k` */
  function Shl(a: nat, k: nat): nat
  {
    a * Pow2(k)
  }

  // ---- products ----

  lemma MulPositive(a: nat, b: nat)
    requires a > 0 && b > 0
    ensures a * b > 0
  {
  }

  lemma MulAssociates(a: int, b: int, c: int)
    ensures (a * b) * c == a * (b * c)
  {
  }

  lemma MulDistributes(a: int, b: int, c: int)
    ensures (a + b) * c == a * c + b * c
  {
  }

  lemma MulMonotone(a: int, b: int, d: int)
    requires d >= 0 && a <= b
    ensures a * d <= b * d
  {
  }

  // ---- masks and shifts ----

  lemma {:induction false} AndZero(a: nat)
    ensures And(a, 0) == And(0, a) == 0
  {
  }

  /** Masking with 2^k - 1 is the remainder modulo 2^k. */
  lemma {:induction false} AndLowMask(a: nat, k: nat)
    ensures And(a, Pow2(k) - 1) == a % Pow2(k)
  {
    hide And;
    if k == 0 {
      AndZero(a);
    } else {
      AndLowMask(a / 2, k - 1);
      HalveStep(a, k);
      AndDouble(a / 2, a % 2, Pow2(k - 1) - 1, 1);
    }
  }

  /** Dividing by 2^k is halving and then dividing by 2^(k-1). */
  lemma {:induction false} HalveStep(a: nat, k: nat)
    requires k > 0
    ensures a / Pow2(k) == (a / 2) / Pow2(k - 1)
    ensures a % Pow2(k) == 2 * ((a / 2) % Pow2(k - 1)) + a % 2
  {
    hide Pow2;
    PowStep(k);
    var p := Pow2(k - 1);
    var q, r := (a / 2) / p, (a / 2) % p;
    Division(a / 2, p);
    DoubleFactor(q, p);
    QuotientRemainder(a, 2 * p, q, 2 * r + a % 2);
  }

  lemma PowZero()
    ensures Pow2(0) == 1
  {
  }

  lemma PowStep(k: nat)
    requires k > 0
    ensures Pow2(k) == 2 * Pow2(k - 1)
  {
  }

  lemma SmallRemainder(a: nat, b: nat)
    requires a < b
    ensures a % b == a && a % 1 == 0
  {
  }

  lemma Division(a: int, b: int)
    requires b > 0
    ensures a == a / b * b + a % b && 0 <= a % b < b
  {
  }

  lemma DoubleFactor(q: int, p: int)
    ensures q * (2 * p) == 2 * (q * p)
  {
  }

  lemma {:induction false} QuotientRemainder(a: int, b: int, q: int, r: int)
    requires b > 0 && 0 <= r < b && a == q * b + r
    ensures a / b == q && a % b == r
  {
    var d := a / b - q;
    Division(a, b);
    MulDistributes(d, q, b);
    MultipleBounds(d, b);
  }

  lemma MultipleBounds(d: int, b: int)
    requires b > 0
    ensures d > 0 ==> d * b >= b
    ensures d < 0 ==> d * b <= -b
  {
  }

  /** Masking a w-bit word with 2^w - 2^k clears its k low bits. */
  lemma {:induction false} AndHighMask(a: nat, w: nat, k: nat)
    requires k <= w && a < Pow2(w)
    ensures Pow2(k) <= Pow2(w)
    ensures And(a, Pow2(w) - Pow2(k)) == a - a % Pow2(k)
    decreases w
  {
    hide And, Pow2;
    Pow2Monotone(k, w);
    if k == 0 {
      PowZero();
      AndLowMask(a, w);
      SmallRemainder(a, Pow2(w));
    } else {
      PowStep(w);
      PowStep(k);
      AndHighMask(a / 2, w - 1, k - 1);
      var mask := Pow2(w - 1) - Pow2(k - 1);
      assert Pow2(w) - Pow2(k) == 2 * mask;
      AndDouble(a / 2, a % 2, mask, 0);
      HalveStep(a, k);
    }
  }

  lemma {:induction false} Pow2Monotone(k: nat, w: nat)
    requires k <= w
    ensures Pow2(k) <= Pow2(w)
    decreases w
  {
    hide Pow2;
    if k < w {
      Pow2Monotone(k, w - 1);
      PowStep(w);
    }
  }

  lemma {:induction false} Pow2Add(j: nat, k: nat)
    ensures Pow2(j + k) == Pow2(j) * Pow2(k)
  {
    hide Pow2;
    if j == 0 {
      PowZero();
    } else {
      Pow2Add(j - 1, k);
      PowStep(j + k);
      PowStep(j);
      MulAssociates(2, Pow2(j - 1), Pow2(k));
    }
  }

  lemma {:induction false} ShrDivides(a: nat, k: nat)
    ensures Shr(a, k) == a / Pow2(k)
  {
    hide Pow2;
    if k == 0 {
      PowZero();
    } else {
      ShrDivides(a / 2, k - 1);
      HalveStep(a, k);
    }
  }

  /** `a | b` and `a & b` share the bits of `a + b`. */
  lemma {:induction false} OrPlusAnd(a: nat, b: nat)
    ensures Or(a, b) + And(a, b) == a + b
  {
    if a > 0 && b > 0 {
      OrPlusAnd(a / 2, b / 2);
    }
  }

  /** A bitwise or needs no more bits than its operands. */
  lemma {:induction false} OrFits(k: nat, a: nat, b: nat)
    requires a < Pow2(k) && b < Pow2(k)
    ensures Or(a, b) < Pow2(k)
  {
    if a > 0 && b > 0 {
      PowStep(k);
      OrFits(k - 1, a / 2, b / 2);
    }
  }

  lemma AndDouble(x: nat, i: nat, y: nat, j: nat)
    requires i < 2 && j < 2
    ensures And(2 * x + i, 2 * y + j) == 2 * And(x, y) + (if i == 1 && j == 1 then 1 else 0)
  {
    hide And;
    AndUnfold(2 * x + i, 2 * y + j);
    assert (2 * x + i) / 2 == x && (2 * y + j) / 2 == y;
  }

  lemma {:induction false} AndUnfold(a: nat, b: nat)
    ensures And(a, b) == 2 * And(a / 2, b / 2) + (if a % 2 == 1 && b % 2 == 1 then 1 else 0)
  {
    if a == 0 || b == 0 {
      AndZero(a / 2);
      AndZero(b / 2);
    }
  }

  lemma SplitHalf(k: nat, a: nat, i: nat)
    requires k > 0 && i < Pow2(k)
    ensures a * Pow2(k) + i == 2 * (a * Pow2(k - 1) + i / 2) + i % 2 && i / 2 < Pow2(k - 1)
  {
    hide Pow2;
    PowStep(k);
    DoubleFactor(a, Pow2(k - 1));
  }

  /** The bits above and below position k do not meet. */
  lemma {:induction false} AndSplit(k: nat, a: nat, i: nat, b: nat, j: nat)
    requires i < Pow2(k) && j < Pow2(k)
    ensures And(a * Pow2(k) + i, b * Pow2(k) + j) == And(a, b) * Pow2(k) + And(i, j)
  {
    hide And, Pow2;
    if k == 0 {
      PowZero();
      AndZero(0);
      assert a * Pow2(0) == a && b * Pow2(0) == b && And(a, b) * Pow2(0) == And(a, b);
    } else {
      SplitHalf(k, a, i);
      SplitHalf(k, b, j);
      AndSplit(k - 1, a, i / 2, b, j / 2);
      AndSplitStep(a * Pow2(k - 1) + i / 2, i, b * Pow2(k - 1) + j / 2, j);
      PowStep(k);
      DoubleFactor(And(a, b), Pow2(k - 1));
    }
  }

  lemma AndSplitStep(x: nat, i: nat, y: nat, j: nat)
    ensures And(2 * x + i % 2, 2 * y + j % 2) == 2 * (And(x, y) - And(i / 2, j / 2)) + And(i, j)
  {
    hide And;
    AndDouble(x, i % 2, y, j % 2);
    AndUnfold(i, j);
  }

  /** Counting up a quotient and its remainder */
  lemma DivSuccessor(x: nat, d: nat)
    requires d > 0
    ensures (x + 1) / d == x / d + (if x % d + 1 == d then 1 else 0)
    ensures (x + 1) % d == if x % d + 1 == d then 0 else x % d + 1
  {
    var q, r := x / d, x % d;
    Division(x, d);
    if r + 1 == d {
      MulDistributes(q, 1, d);
      QuotientRemainder(x + 1, d, q + 1, 0);
    } else {
      QuotientRemainder(x + 1, d, q, r + 1);
    }
  }
}
