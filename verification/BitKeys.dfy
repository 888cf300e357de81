/** Keys as strings of 256 bits, most significant bit of the first byte first. */
module BitKeys {
  import opened Words

  type Key = Bytes32

  const BITS: nat := 256

  /** `1 << (7 - j)` */
  function Weight(j: nat): (w: nat)
    requires j < 8
    ensures w > 0
  {
    [128, 64, 32, 16, 8, 4, 2, 1][j]
  }

  predicate Bit(b: Byte, j: nat)
    requires j < 8
  {
    b / Weight(j) % 2 == 1
  }

  /** `bitIsSet` */
  predicate BitIsSet(bits: seq<Byte>, i: nat)
    requires i / 8 < |bits|
  {
    Bit(bits[i / 8], i % 8)
  }

  /** Bit i in numbers: bits of a byte count from the most significant one. */
  predicate BitOf(bits: seq<Byte>, i: nat)
    requires i / 8 < |bits|
  {
    bits[i / 8] / Pow2(7 - i % 8) % 2 == 1
  }

  lemma BitIsBitOf(bits: seq<Byte>, i: nat)
    requires i / 8 < |bits|
    ensures BitIsSet(bits, i) <==> BitOf(bits, i)
  {
    WeightIsPower(i % 8);
  }

  lemma TopBit(key: Key)
    ensures BitOf(key, 0) <==> key[0] >= 128
  {
    WeightIsPower(0);
  }

  lemma WeightIsPower(j: nat)
    requires j < 8
    ensures Weight(j) == Pow2(7 - j)
  {
    assert Pow2(3) == 8;
    assert Pow2(5) == 32;
    assert Pow2(7) == 128;
  }

  function SetInByte(b: Byte, j: nat): (c: Byte)
    requires j < 8
    ensures Bit(c, j)
  {
    if Bit(b, j) then b else
      ByteRoom(b, j);
      b + Weight(j)
  }

  /** A clear bit leaves room for its weight. */
  lemma ByteRoom(b: Byte, j: nat)
    requires j < 8 && !Bit(b, j)
    ensures b + Weight(j) < 256 && Bit(b + Weight(j), j)
  {
    assert b / 128 % 2 == b / 128;
    if j == 0 {} else if j == 1 {} else if j == 2 {} else if j == 3 {} else if j == 4 {} else if j == 5 {}
    else if j == 6 {} else {}
  }

  lemma SetInByteOthers(b: Byte, j: nat, k: nat)
    requires j < 8 && k < 8 && j != k
    ensures Bit(SetInByte(b, j), k) == Bit(b, k)
  {
    if !Bit(b, j) {
      var w, x := Weight(j), Weight(k);
      ByteRoom(b, j);
      WeightDivides(b, j, k);
    }
  }

  /** Adding the weight of a clear bit changes no other bit. */
  lemma WeightDivides(b: Byte, j: nat, k: nat)
    requires j < 8 && k < 8 && j != k && !Bit(b, j)
    ensures (b + Weight(j)) / Weight(k) % 2 == b / Weight(k) % 2
  {
    if j < k {
      WeightProduct(j, k);
      AddEven(b, Weight(k), Weight(8 - k + j));
    } else {
      ByteRoom(b, j);
      TopStep(b, j);
      TopStep(b + Weight(j), j);
      AddOne(b, Weight(j));
      TopDown(b, b + Weight(j), j, k + 1);
    }
  }

  lemma WeightProduct(j: nat, k: nat)
    requires j < k < 8
    ensures Weight(j) == 2 * Weight(8 - k + j) * Weight(k)
  {
  }

  lemma AddEven(b: nat, x: nat, m: nat)
    requires x > 0
    ensures (b + 2 * m * x) / x % 2 == b / x % 2
  {
    var q, r, c := b / x, b % x, b + 2 * m * x;
    assert c == x * (q + 2 * m) + r by {
      Divide(b, x);
      Expand(x, q, m);
    }
    Quotient(x, q + 2 * m, r);
    assert c / x == q + 2 * m;
  }

  lemma Divide(b: nat, x: nat)
    requires x > 0
    ensures b == x * (b / x) + b % x
  {
  }

  lemma Expand(x: nat, q: nat, m: nat)
    ensures x * (q + 2 * m) == x * q + 2 * m * x
  {
  }

  lemma AddOne(b: nat, x: nat)
    requires x > 0
    ensures (b + x) / x == b / x + 1
  {
    assert x * (b / x + 1) == x * (b / x) + x;
    Quotient(x, b / x + 1, b % x);
  }

  lemma Quotient(x: nat, q: nat, r: nat)
    requires r < x
    ensures (x * q + r) / x == q
  {
    var y := (x * q + r) / x;
    assert x * y <= x * q + r < x * y + x;
    if y < q {
      Times(x, y + 1, q);
    } else if q < y {
      Times(x, q + 1, y);
    }
  }

  lemma Times(x: nat, a: nat, b: nat)
    requires a <= b
    ensures x * a <= x * b
  {
  }

  /** `bitSet` */
  function BitSet(bits: seq<Byte>, i: nat): (r: seq<Byte>)
    requires i / 8 < |bits|
    ensures |r| == |bits|
  {
    bits[i / 8 := SetInByte(bits[i / 8], i % 8)]
  }

  /** Setting a bit sets that bit and no other. */
  lemma BitSetBit(bits: seq<Byte>, i: nat, k: nat)
    requires i / 8 < |bits| && k / 8 < |bits|
    ensures BitIsSet(BitSet(bits, i), k) <==> k == i || BitIsSet(bits, k)
  {
    if k / 8 == i / 8 && k != i {
      SetInByteOthers(bits[i / 8], i % 8, k % 8);
    }
  }

  // ---------------------------------------------------------------- bits determine keys and their order

  predicate SameBits(a: Key, b: Key, d: nat)
    requires d <= BITS
  {
    forall i :: 0 <= i < d ==> BitIsSet(a, i) == BitIsSet(b, i)
  }

  /** The top j bits of a byte, as a number. */
  function Top(b: Byte, j: nat): nat
    requires j <= 8
  {
    b / (if j == 0 then 256 else Weight(j - 1))
  }

  lemma TopStep(b: Byte, j: nat)
    requires j < 8
    ensures Top(b, j + 1) == 2 * Top(b, j) + if Bit(b, j) then 1 else 0
  {
    if j > 0 { assert Weight(j - 1) == 2 * Weight(j); }
    Halve(b, Weight(j));
  }

  lemma Halve(b: nat, w: nat)
    requires w > 0
    ensures b / w == 2 * (b / (2 * w)) + b / w % 2
  {
    var c, r := b / w, b % w;
    var q, e := c / 2, c % 2;
    assert b == 2 * w * q + (w * e + r) && w * e <= w by {
      Divide(b, w);
      HalfParts(w, q, e);
    }
    Quotient(2 * w, q, w * e + r);
    assert b / (2 * w) == q;
  }

  lemma HalfParts(w: nat, q: nat, e: nat)
    requires e < 2
    ensures w * (2 * q + e) == 2 * w * q + w * e && w * e <= w
  {
    if e == 1 { assert w * e == w; }
  }

  /** Equal leading bits of two bytes are equal from the top down. */
  lemma {:induction false} TopDown(a: Byte, b: Byte, j: nat, k: nat)
    requires k <= j < 8 && Top(a, j) == Top(b, j)
    ensures Top(a, k) == Top(b, k)
  {
    if k < j {
      TopStep(a, j - 1);
      TopStep(b, j - 1);
      TopDown(a, b, j - 1, k);
    }
  }

  lemma {:induction false} TopEqual(a: Byte, b: Byte, j: nat)
    requires j <= 8 && forall i :: 0 <= i < j ==> Bit(a, i) == Bit(b, i)
    ensures Top(a, j) == Top(b, j)
  {
    if j > 0 {
      TopEqual(a, b, j - 1);
      TopStep(a, j - 1);
      TopStep(b, j - 1);
    }
  }

  lemma ByteBits(a: Key, b: Key, i: nat)
    requires i < 32 && forall n :: 8 * i <= n < 8 * i + 8 ==> BitIsSet(a, n) == BitIsSet(b, n)
    ensures a[i] == b[i]
  {
    forall j | 0 <= j < 8 ensures Bit(a[i], j) == Bit(b[i], j) {
      assert (8 * i + j) / 8 == i && (8 * i + j) % 8 == j;
      assert BitIsSet(a, 8 * i + j) == BitIsSet(b, 8 * i + j);
    }
    TopEqual(a[i], b[i], 8);
  }

  /** Keys with the same 256 bits are one key. */
  lemma BitsDetermine(a: Key, b: Key)
    requires SameBits(a, b, BITS)
    ensures a == b
  {
    forall i | 0 <= i < 32 ensures a[i] == b[i] {
      ByteBits(a, b, i);
    }
  }

  /** Under common leading bits, the smaller key has the clear bit. */
  lemma LessBit(a: Key, b: Key, d: nat)
    requires d < BITS && SameBits(a, b, d) && Less(a, b) && BitIsSet(a, d) != BitIsSet(b, d)
    ensures !BitIsSet(a, d) && BitIsSet(b, d)
  {
    var i, j := d / 8, d % 8;
    forall n | 0 <= n < i ensures a[n] == b[n] {
      ByteBits(a, b, n);
    }
    assert a[..i] == b[..i];
    LessByte(a, b, i);
    forall n | 0 <= n < j ensures Bit(a[i], n) == Bit(b[i], n) {
      assert (8 * i + n) / 8 == i && (8 * i + n) % 8 == n;
      assert BitIsSet(a, 8 * i + n) == BitIsSet(b, 8 * i + n);
    }
    TopEqual(a[i], b[i], j);
    TopStep(a[i], j);
    TopStep(b[i], j);
    if Bit(a[i], j) {
      TopMonotone(a[i], b[i], j + 1);
    }
  }

  lemma TopMonotone(a: Byte, b: Byte, j: nat)
    requires j <= 8 && a <= b
    ensures Top(a, j) <= Top(b, j)
  {
    QuotientMonotone(a, b, if j == 0 then 256 else Weight(j - 1));
  }

  lemma QuotientMonotone(a: nat, b: nat, x: nat)
    requires x > 0 && a <= b
    ensures a / x <= b / x
  {
    assert x * (b / x) + x > b;
    if b / x < a / x {
      Times(x, b / x + 1, a / x);
    }
  }
}
