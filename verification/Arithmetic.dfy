/** Products, remainders and powers of two. */
module Arithmetic {
  import opened Words

  lemma Distribute(q: nat, r: nat, p: nat)
    ensures (q * 128 + r) * p == r * p + q * (p * 128)
  {
  }

  lemma MulMonotone(a: nat, b: nat, p: nat)
    requires a <= b
    ensures a * p <= b * p
  {
  }

  lemma {:induction false} Pow2Monotone(a: nat, b: nat)
    requires a <= b
    ensures Pow2(a) <= Pow2(b)
    decreases b
  {
    if a < b { Pow2Monotone(a, b - 1); }
  }

  lemma ModBelow(a: nat, m: nat)
    requires m > 0
    ensures a % m <= a && a % m < m
  {
    if a >= m { assert a % m < m <= a; } else { SmallMod(a, m); }
  }

  lemma GroupBound(acc: nat, g: nat, p: nat)
    requires acc < p && g < 128
    ensures acc + g * p < p * 128
  {
    MulMonotone(g, 127, p);
  }

  lemma ModAddMultiple(a: nat, k: nat, m: nat)
    requires m > 0
    ensures (a + k * m) % m == a % m
    decreases k
  {
    if k > 0 {
      ModAddMultiple(a, k - 1, m);
      assert a + k * m == a + (k - 1) * m + m;
      ModStep(a + (k - 1) * m, m);
    }
  }

  lemma ModStep(a: nat, m: nat)
    requires m > 0
    ensures (a + m) % m == a % m
  {
    ModUnique(a + m, a / m + 1, a % m, m);
  }

  lemma ModUnique(a: nat, q: nat, r: nat, m: nat)
    requires a == q * m + r && r < m
    ensures a % m == r
  {
    var q' := a / m;
    assert a == q' * m + a % m;
    if q > q' {
      MulMonotone(q' + 1, q, m);
    } else if q < q' {
      MulMonotone(q + 1, q', m);
    }
  }

  lemma ModPlus(a: nat, x: nat, m: nat)
    requires m > 0
    ensures (a % m + x) % m == (a + x) % m
  {
    var q, r := a / m, a % m;
    DivisionOf(a, m);
    PlusMultiple(q, r, x, m);
  }

  lemma DivisionOf(a: nat, m: nat)
    requires m > 0
    ensures a == a / m * m + a % m
  {
  }

  lemma PlusMultiple(q: nat, r: nat, x: nat, m: nat)
    requires m > 0
    ensures (q * m + r + x) % m == (r + x) % m
  {
    ModAddMultiple(r + x, q, m);
  }

  lemma ModMod(a: nat, m: nat, k: nat)
    requires m > 0 && k > 0
    ensures m * k > 0 && a % (m * k) % m == a % m
  {
    assert a == a / (m * k) * (m * k) + a % (m * k);
    Reassociate(a / (m * k), m, k);
    ModAddMultiple(a % (m * k), a / (m * k) * k, m);
  }

  lemma Reassociate(q: nat, m: nat, k: nat)
    ensures q * (m * k) == q * k * m
  {
  }

  lemma Multiple(g: nat, q: nat, m: nat)
    requires m > 0
    ensures g * (m * q) == g * q * m && g * (m * q) % m == 0
  {
    ModAddMultiple(0, g * q, m);
  }

  /** What a shift pushes out of the word does not matter to the digits below. */
  lemma TopBits(acc: nat, g: nat, p: nat, q: nat)
    requires acc < p && q > 0
    ensures p * q > 0 && g * p % (p * q) == g % q * p
    ensures (acc + g * p) % (p * q) == acc + g % q * p
    ensures acc < p * q
  {
    var h := g % q;
    assert g * p == h * p + g / q * (p * q) by {
      assert g == g / q * q + h;
      Split(g / q, q, h, p);
    }
    assert h * p + p <= p * q by { MulMonotone(h + 1, q, p); }
    ModAddMultiple(h * p, g / q, p * q);
    ModAddMultiple(acc + h * p, g / q, p * q);
    MulMonotone(1, q, p);
    SmallMod(h * p, p * q);
    SmallMod(acc + h * p, p * q);
  }

  lemma Split(k: nat, q: nat, h: nat, p: nat)
    ensures (k * q + h) * p == h * p + k * (p * q)
  {
  }

  lemma SmallMod(a: nat, m: nat)
    requires a < m
    ensures a % m == a
  {
  }

  // ---------------------------------------------------------------- binary digits

  /** `(x >> b) & 1` */
  function Digit(x: nat, b: nat): nat {
    x / Pow2(b) % 2
  }

  lemma {:induction false} DigitOfBit(x: nat, b: nat)
    ensures BitAt(x, b) <==> Digit(x, b) == 1
  {
    if b > 0 {
      DigitOfBit(x / 2, b - 1);
      DivideTwice(x, 2, Pow2(b - 1));
    }
  }

  lemma DivideTwice(x: nat, a: nat, b: nat)
    requires a > 0 && b > 0
    ensures a * b > 0 && x / a / b == x / (a * b)
  {
    var q, r := x / a / b, x / a % b;
    var s := x % a;
    assert x == (q * b + r) * a + s;
    Regroup(q, a, b, r, s);
    Below(r, s, a, b);
    Quotient(x, a * b, q, r * a + s);
  }

  lemma Regroup(q: nat, a: nat, b: nat, r: nat, s: nat)
    ensures (q * b + r) * a + s == q * (a * b) + (r * a + s)
  {
  }

  lemma Below(r: nat, s: nat, a: nat, b: nat)
    requires r < b && s < a
    ensures r * a + s < a * b
  {
    MulMonotone(r + 1, b, a);
  }

  lemma Quotient(x: nat, m: nat, q: nat, r: nat)
    requires r < m && x == q * m + r
    ensures x / m == q
  {
    ModUnique(x, q, r, m);
    var p := x / m;
    assert x == p * m + x % m;
    if p > q {
      MulMonotone(q + 1, p, m);
    } else if p < q {
      MulMonotone(p + 1, q, m);
    }
  }

  /** Bit 8 * j + r of a number is bit r of its byte j. */
  lemma {:induction false} BitOfByte(x: nat, n: nat, j: nat, r: nat)
    requires j < n && r < 8
    ensures BitAt(x, 8 * j + r) <==> BitAt(ToLE(x, n)[j], r)
  {
    if j == 0 {
      LowByte(x, 8, r);
    } else {
      EightOn(x, 8 * (j - 1) + r);
      BitOfByte(x / 256, n - 1, j - 1, r);
    }
  }

  lemma EightOn(x: nat, b: nat)
    ensures BitAt(x, b + 8) <==> BitAt(x / 256, b)
  {
    assert BitAt(x, b + 8) == BitAt(x / 2, b + 7) == BitAt(x / 4, b + 6);
    assert BitAt(x / 4, b + 6) == BitAt(x / 8, b + 5) == BitAt(x / 16, b + 4);
    assert BitAt(x / 16, b + 4) == BitAt(x / 32, b + 3) == BitAt(x / 64, b + 2);
    assert BitAt(x / 64, b + 2) == BitAt(x / 128, b + 1) == BitAt(x / 256, b);
  }

  /** The bits below n are those of the remainder. */
  lemma {:induction false} LowByte(x: nat, n: nat, r: nat)
    requires r < n
    ensures BitAt(x, r) <==> BitAt(x % Pow2(n), r)
    decreases n
  {
    HalfOfRemainder(x, Pow2(n - 1));
    if r > 0 { LowByte(x / 2, n - 1, r - 1); }
  }

  lemma HalfOfRemainder(x: nat, m: nat)
    requires m > 0
    ensures x % (2 * m) / 2 == x / 2 % m && x % (2 * m) % 2 == x % 2
  {
    var q, r := x / (2 * m), x % (2 * m);
    assert x == q * (2 * m) + r;
    assert q * (2 * m) == 2 * (q * m);
    assert x / 2 == q * m + r / 2 && x % 2 == r % 2;
    ModUnique(x / 2, q, r / 2, m);
  }
}
