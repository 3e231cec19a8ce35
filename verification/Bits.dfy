/** Unsigned binary arithmetic on natural numbers. */
module Bits {

  type byte = x: int | 0 <= x < 256

  /** The number of values of an unsigned 32-bit integer. */
  const CARD32: nat := 0x1_0000_0000

  function Pow2(n: nat): (r: nat)
    ensures r > 0
  {
    if n == 0 then 1 else 2 * Pow2(n - 1)
  }

  function And(a: nat, b: nat): nat {
    if a == 0 || b == 0 then 0 else (a % 2) * (b % 2) + 2 * And(a / 2, b / 2)
  }

  function Or(a: nat, b: nat): nat {
    if a == 0 then b else if b == 0 then a
    else (if a % 2 == 1 || b % 2 == 1 then 1 else 0) + 2 * Or(a / 2, b / 2)
  }

  function Xor(a: nat, b: nat): nat {
    if a == 0 then b else if b == 0 then a
    else (a % 2 + b % 2) % 2 + 2 * Xor(a / 2, b / 2)
  }

  /** The number of one bits. */
  function Ones(a: nat): nat {
    if a == 0 then 0 else a % 2 + Ones(a / 2)
  }

  predicate Bit(a: nat, k: nat) {
    if k == 0 then a % 2 == 1 else Bit(a / 2, k - 1)
  }

  function Low(a: nat, n: nat): nat {
    a % Pow2(n)
  }

  lemma {:induction false} HalveMod(a: nat, m: nat)
    requires m > 0
    ensures a % (2 * m) == a % 2 + 2 * ((a / 2) % m)
  {
    var h := a / 2;
    var q, r := h / m, h % m;
    assert a == 2 * h + a % 2;
    assert h == q * m + r;
    assert a == q * (2 * m) + (2 * r + a % 2);
    ModUnique(a, 2 * m, q, 2 * r + a % 2);
  }

  lemma {:induction false} MulStep(p: nat, q: nat, m: nat)
    requires p < q
    ensures p * m + m <= q * m
  {
    assert q * m == p * m + (q - p) * m;
    assert (q - p) * m == m + (q - p - 1) * m;
  }

  lemma {:induction false} ModUnique(a: nat, m: nat, q: nat, r: nat)
    requires m > 0 && r < m && a == q * m + r
    ensures a % m == r && a / m == q
  {
    var p, s := a / m, a % m;
    assert a == p * m + s && 0 <= s < m;
    QuotientUnique(m, q, r, p, s);
  }

  lemma {:induction false} QuotientUnique(m: nat, q: nat, r: nat, p: nat, s: nat)
    requires r < m && s < m && q * m + r == p * m + s
    ensures q == p && r == s
  {
    if q > p {
      MulStep(p, q, m);
    } else if q < p {
      MulStep(q, p, m);
    }
  }

  /** a * b as repeated addition, for arithmetic on addresses. */
  function Times(a: nat, b: nat): nat {
    if a == 0 then 0 else Times(a - 1, b) + b
  }

  lemma {:induction false} TimesIsProduct(a: nat, b: nat)
    ensures Times(a, b) == a * b
  {
    if a > 0 {
      TimesIsProduct(a - 1, b);
    }
  }

  lemma {:induction false} TimesAdd(a: nat, b: nat, m: nat)
    ensures Times(a + b, m) == Times(a, m) + Times(b, m)
  {
    if b > 0 {
      TimesAdd(a, b - 1, m);
    }
  }

  lemma {:induction false} TimesMono(a: nat, b: nat, m: nat)
    requires a <= b
    ensures Times(a, m) <= Times(b, m)
  {
    TimesAdd(a, b - a, m);
  }

  lemma {:induction false} TimesStep(a: nat, b: nat, m: nat)
    requires a < b
    ensures Times(a, m) + m <= Times(b, m)
  {
    TimesMono(a + 1, b, m);
  }

  lemma {:induction false} AndOdd(a: nat, b: nat)
    requires b % 2 == 1
    ensures And(a, b) == a % 2 + 2 * And(a / 2, b / 2)
  {
  }

  /** Masking with n one bits keeps the remainder modulo 2^n. */
  lemma {:induction false} AndMask(a: nat, n: nat)
    ensures And(a, Pow2(n) - 1) == Low(a, n)
  {
    if n > 0 {
      AndMask(a / 2, n - 1);
      Halve(Pow2(n) - 1, 1, Pow2(n - 1) - 1);
      AndOdd(a, Pow2(n) - 1);
      LowSum(a, n);
    }
  }

  /** A plane mask: the highest plane, and every plane below it. */
  lemma {:induction false} OrBelow(k: nat)
    ensures Or(Pow2(k), Pow2(k) - 1) == Pow2(k + 1) - 1
  {
    if k > 0 {
      OrBelow(k - 1);
      var half := Pow2(k - 1);
      assert (2 * half - 1) / 2 == half - 1 && (2 * half - 1) % 2 == 1;
    }
  }

  /** Testing one plane is testing one bit. */
  lemma {:induction false} AndOnePlane(a: nat, k: nat)
    ensures And(a, Pow2(k)) == if Bit(a, k) then Pow2(k) else 0
  {
    if k > 0 {
      AndOnePlane(a / 2, k - 1);
      assert Pow2(k) / 2 == Pow2(k - 1) && Pow2(k) % 2 == 0;
    } else if a > 0 {
      assert And(a / 2, 0) == 0;
    }
  }

  /** The number of one bits among the n lowest. */
  function CountBits(a: nat, n: nat): nat {
    if n == 0 then 0 else (if Bit(a, n - 1) then 1 else 0) + CountBits(a, n - 1)
  }

  lemma {:induction false} CountBitsHalf(a: nat, n: nat)
    requires n > 0
    ensures CountBits(a, n) == a % 2 + CountBits(a / 2, n - 1)
  {
    if n > 1 {
      CountBitsHalf(a, n - 1);
    }
  }

  lemma {:induction false} Halve(x: nat, bit: nat, half: nat)
    requires x == bit + 2 * half && bit < 2
    ensures x % 2 == bit && x / 2 == half
  {
  }

  lemma {:induction false} LowSum(a: nat, n: nat)
    requires n > 0
    ensures Low(a, n) == a % 2 + 2 * Low(a / 2, n - 1)
  {
    HalveMod(a, Pow2(n - 1));
  }

  lemma {:induction false} LowHalf(a: nat, n: nat)
    requires n > 0
    ensures Low(a, n) % 2 == a % 2 && Low(a, n) / 2 == Low(a / 2, n - 1)
  {
    LowSum(a, n);
    Halve(Low(a, n), a % 2, Low(a / 2, n - 1));
  }

  lemma {:induction false} OnesHalf(a: nat)
    ensures Ones(a) == a % 2 + Ones(a / 2)
  {
  }

  lemma {:induction false} OnesOfLow(a: nat, n: nat)
    ensures Ones(Low(a, n)) == CountBits(a, n)
  {
    if n > 0 {
      OnesOfLow(a / 2, n - 1);
      CountBitsHalf(a, n);
      LowHalf(a, n);
      OnesHalf(Low(a, n));
    }
  }

  /** One more bit of the same number either keeps its low part or adds 2^n to it. */
  lemma {:induction false} LowSplits(a: nat, n: nat)
    ensures Low(a, n + 1) == Low(a, n) || Low(a, n + 1) == Low(a, n) + Pow2(n)
  {
    var m := Pow2(n);
    var q, r := a / (2 * m), a % (2 * m);
    assert a == q * (2 * m) + r;
    if r < m {
      assert a == (2 * q) * m + r;
      ModUnique(a, m, 2 * q, r);
    } else {
      assert a == (2 * q + 1) * m + (r - m);
      ModUnique(a, m, 2 * q + 1, r - m);
    }
  }

  lemma {:induction false} ZeroBit(k: nat)
    ensures !Bit(0, k)
  {
    if k > 0 {
      ZeroBit(k - 1);
    }
  }

  /** An exclusive or works bit by bit. */
  lemma {:induction false} XorBit(a: nat, b: nat, k: nat)
    ensures Bit(Xor(a, b), k) <==> Bit(a, k) != Bit(b, k)
    decreases k
  {
    ZeroBit(k);
    if a != 0 && b != 0 {
      Halve(Xor(a, b), (a % 2 + b % 2) % 2, Xor(a / 2, b / 2));
      if k > 0 {
        XorBit(a / 2, b / 2, k - 1);
      }
    }
  }

  /** Halving n times. */
  function Shift(a: nat, n: nat): nat {
    if n == 0 then a else Shift(a / 2, n - 1)
  }

  lemma {:induction false} ShiftBit(a: nat, n: nat, k: nat)
    ensures Bit(Shift(a, n), k) <==> Bit(a, k + n)
    decreases n
  {
    if n > 0 {
      ShiftBit(a / 2, n - 1, k);
    }
  }

  lemma {:induction false} ShiftSplit(a: nat, m: nat, n: nat)
    ensures Shift(a, m + n) == Shift(Shift(a, m), n)
    decreases m
  {
    if m > 0 {
      ShiftSplit(a / 2, m - 1, n);
    }
  }
}
