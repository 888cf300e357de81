/** Bytes and machine words.

    A `uint64` is a natural number below 2^64.  The bit operations that the code
    uses are defined by recursion on the binary digits, least significant first,
    so that each of them has the meaning of the machine operation it is named after.
 */
module Words {

  type Byte = x: int | 0 <= x < 256

  /** A 32-byte string: a key or a digest. */
  type Bytes32 = s: seq<Byte> | |s| == 32 witness seq(32, _ => 0)

  const U64_MAX: nat := 0xFFFF_FFFF_FFFF_FFFF

  type U64 = x: int | 0 <= x <= U64_MAX
  type U32 = x: int | 0 <= x < 0x1_0000_0000

  datatype Option<+T> = None | Some(value: T) {
    function GetOr(default: T): T {
      if this.Some? then value else default
    }
  }

  // ---------------------------------------------------------------- powers

  function Pow2(n: nat): (p: nat)
    ensures p > 0
  {
    if n == 0 then 1 else 2 * Pow2(n - 1)
  }

  lemma {:induction false} Pow2Add(a: nat, b: nat)
    ensures Pow2(a + b) == Pow2(a) * Pow2(b)
  {
    if a > 0 {
      Pow2Add(a - 1, b);
      assert Pow2(a + b) == 2 * Pow2(a - 1 + b);
    }
  }

  lemma Pow2Values()
    ensures Pow2(7) == 128 && Pow2(8) == 256
    ensures Pow2(32) == 0x1_0000_0000
    ensures Pow2(63) == 0x8000_0000_0000_0000
    ensures Pow2(64) == U64_MAX + 1
  {
    assert Pow2(4) == 16;
    Pow2Add(4, 3);
    Pow2Add(4, 4);
    Pow2Add(8, 8);
    Pow2Add(16, 16);
    Pow2Add(32, 32);
    assert Pow2(64) == 2 * Pow2(63);
  }

  // ---------------------------------------------------------------- single words

  /** `(x >> b) & 1 == 1` */
  predicate BitAt(x: nat, b: nat) {
    if b == 0 then x % 2 == 1 else BitAt(x / 2, b - 1)
  }

  /** `x | (1 << b)` */
  function SetBit(x: nat, b: nat): nat {
    if b == 0 then x / 2 * 2 + 1 else x % 2 + 2 * SetBit(x / 2, b - 1)
  }

  /** `x & ((1 << b) - 1)` */
  function LowBits(x: nat, b: nat): nat {
    if b == 0 then 0 else x % 2 + 2 * LowBits(x / 2, b - 1)
  }

  /** `bits.OnesCount64(x)` */
  function OnesCount(x: nat): nat {
    if x == 0 then 0 else x % 2 + OnesCount(x / 2)
  }

  /** `x | y` */
  function BitOr(x: nat, y: nat): nat {
    if x == 0 then y else (if x % 2 == 1 then 1 else y % 2) + 2 * BitOr(x / 2, y / 2)
  }

  /** `x << s` in a word of w bits. */
  function ShiftLeft(x: nat, s: nat, w: nat): nat {
    x * Pow2(s) % Pow2(w)
  }

  /** Or-ing in digits above those already there adds them. */
  lemma {:induction false} BitOrDisjoint(x: nat, h: nat, s: nat)
    requires x < Pow2(s)
    ensures BitOr(x, h * Pow2(s)) == x + h * Pow2(s)
  {
    if x > 0 {
      assert h * Pow2(s) == 2 * (h * Pow2(s - 1));
      BitOrDisjoint(x / 2, h, s - 1);
    }
  }

  lemma {:induction false} BitOrNothing(x: nat)
    ensures BitOr(x, 0) == x
  {
    if x > 0 { BitOrNothing(x / 2); }
  }

  // ---------------------------------------------------------------- words as flag vectors

  /** The word whose bit b is set exactly when f[b]. */
  function Pack(f: seq<bool>): nat {
    if f == [] then 0 else (if f[0] then 1 else 0) + 2 * Pack(f[1..])
  }

  function CountTrue(f: seq<bool>): (n: nat)
    ensures n <= |f|
  {
    if f == [] then 0 else CountTrue(f[..|f| - 1]) + if f[|f| - 1] then 1 else 0
  }

  lemma {:induction false} PackBound(f: seq<bool>)
    ensures Pack(f) < Pow2(|f|)
  {
    if f != [] { PackBound(f[1..]); }
  }

  lemma {:induction false} PackNone(f: seq<bool>)
    requires forall i :: 0 <= i < |f| ==> !f[i]
    ensures Pack(f) == 0
  {
    if f != [] { PackNone(f[1..]); }
  }

  /** Packing is faithful: every bit can be read back. */
  lemma {:induction false} PackBit(f: seq<bool>, b: nat)
    requires b < |f|
    ensures BitAt(Pack(f), b) == f[b]
  {
    if b > 0 {
      assert Pack(f) / 2 == Pack(f[1..]);
      PackBit(f[1..], b - 1);
    }
  }

  lemma {:induction false} PackSet(f: seq<bool>, b: nat)
    requires b < |f|
    ensures SetBit(Pack(f), b) == Pack(f[b := true])
  {
    var g := f[b := true];
    if b == 0 {
      assert g[1..] == f[1..];
    } else {
      assert g[1..] == f[1..][b - 1 := true];
      PackSet(f[1..], b - 1);
    }
  }

  lemma {:induction false} CountTrueCons(f: seq<bool>)
    requires f != []
    ensures CountTrue(f) == (if f[0] then 1 else 0) + CountTrue(f[1..])
  {
    if |f| > 1 {
      var init := f[..|f| - 1];
      CountTrueCons(init);
      assert init[1..] == f[1..][..|f| - 2];
    }
  }

  lemma {:induction false} PackCount(f: seq<bool>)
    ensures OnesCount(Pack(f)) == CountTrue(f)
  {
    if f != [] {
      CountTrueCons(f);
      PackCount(f[1..]);
    }
  }

  /** The population count below bit b is the number of flags before position b. */
  lemma {:induction false} PackCountBelow(f: seq<bool>, b: nat)
    requires b <= |f|
    ensures OnesCount(LowBits(Pack(f), b)) == CountTrue(f[..b])
  {
    if b > 0 {
      PackHalves(f);
      PackCountBelow(f[1..], b - 1);
      hide Pack, CountTrue;
      OnesCountDigit(if f[0] then 1 else 0, LowBits(Pack(f[1..]), b - 1));
      CountTrueCons(f[..b]);
      assert f[..b][1..] == f[1..][..b - 1];
    } else {
      assert f[..0] == [];
    }
  }

  lemma PackHalves(f: seq<bool>)
    requires f != []
    ensures Pack(f) % 2 == (if f[0] then 1 else 0) && Pack(f) / 2 == Pack(f[1..])
  {
  }

  lemma OnesCountDigit(d: nat, x: nat)
    requires d <= 1
    ensures OnesCount(d + 2 * x) == d + OnesCount(x)
  {
  }

  lemma {:induction false} CountTrueSplit(f: seq<bool>, g: seq<bool>)
    ensures CountTrue(f + g) == CountTrue(f) + CountTrue(g)
  {
    if g == [] {
      assert f + g == f;
    } else {
      assert (f + g)[..|f + g| - 1] == f + g[..|g| - 1];
      CountTrueSplit(f, g[..|g| - 1]);
    }
  }

  // ---------------------------------------------------------------- little-endian bytes

  /** The n low bytes of x, least significant first (`binary.LittleEndian.PutUint64` for n = 8). */
  function ToLE(x: nat, n: nat): (bs: seq<Byte>)
    ensures |bs| == n
  {
    if n == 0 then [] else [x % 256] + ToLE(x / 256, n - 1)
  }

  /** `binary.LittleEndian.Uint64` for |bs| = 8. */
  function FromLE(bs: seq<Byte>): nat {
    if bs == [] then 0 else bs[0] + 256 * FromLE(bs[1..])
  }

  lemma {:induction false} LERoundTrip(x: nat, n: nat)
    requires x < Pow2(8 * n)
    ensures FromLE(ToLE(x, n)) == x
  {
    if n > 0 {
      Pow2Values();
      Pow2Add(8, 8 * (n - 1));
      LERoundTrip(x / 256, n - 1);
      assert ToLE(x, n)[1..] == ToLE(x / 256, n - 1);
    }
  }

  // ---------------------------------------------------------------- the order of byte strings

  /** `bytes.Compare(a, b) < 0` for strings of one length. */
  predicate Less(a: seq<Byte>, b: seq<Byte>)
    requires |a| == |b|
  {
    a != [] && (a[0] < b[0] || (a[0] == b[0] && Less(a[1..], b[1..])))
  }

  lemma {:induction false} LessTransitive(a: seq<Byte>, b: seq<Byte>, c: seq<Byte>)
    requires |a| == |b| == |c| && Less(a, b) && Less(b, c)
    ensures Less(a, c)
  {
    if a[0] == b[0] == c[0] { LessTransitive(a[1..], b[1..], c[1..]); }
  }

  lemma {:induction false} LessTotal(a: seq<Byte>, b: seq<Byte>)
    requires |a| == |b|
    ensures a == b || Less(a, b) || Less(b, a)
  {
    if a != [] && a[0] == b[0] {
      LessTotal(a[1..], b[1..]);
      assert a == [a[0]] + a[1..] && b == [b[0]] + b[1..];
    }
  }

  lemma {:induction false} LessIrreflexive(a: seq<Byte>)
    ensures !Less(a, a)
  {
    if a != [] { LessIrreflexive(a[1..]); }
  }

  /** Under a common prefix the next byte does not decrease. */
  lemma {:induction false} LessByte(a: seq<Byte>, b: seq<Byte>, d: nat)
    requires |a| == |b| && d < |a| && Less(a, b) && a[..d] == b[..d]
    ensures a[d] <= b[d]
  {
    if d > 0 {
      assert a[0] == a[..d][0] && b[0] == b[..d][0];
      assert a[1..][..d - 1] == a[..d][1..] && b[1..][..d - 1] == b[..d][1..];
      LessByte(a[1..], b[1..], d - 1);
    }
  }
}
