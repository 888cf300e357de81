/** Node layout of the 256-ary sparse Merkle tree.

    A leaf is `[1] key value`; an internal node is `[0] bitmap digests`, where the
    bitmap is four little-endian words and only non-empty children are written.
 */
module SmtNodes {
  import opened Arithmetic
  import opened Words

  const KEY_SIZE: nat := 32
  const HASH_SIZE: nat := 32
  const ARITY: nat := 256
  const NODE_INTERNAL: Byte := 0
  const NODE_LEAF: Byte := 1
  const BITMAP_END: nat := 33

  type Key = Bytes32
  type Digest = Bytes32
  type Value = seq<Byte>

  const EMPTY: Digest := [0, 0, 0, 0, 0, 0, 0, 0, 0, 0, 0, 0, 0, 0, 0, 0,
                           0, 0, 0, 0, 0, 0, 0, 0, 0, 0, 0, 0, 0, 0, 0, 0]

  const EMPTY_CHILDREN: seq<Digest> := seq(256, _ => EMPTY)

  /** The child table of an internal node; EMPTY marks an absent child. */
  type Children = c: seq<Digest> | |c| == 256 witness EMPTY_CHILDREN

  function Flags(cs: seq<Digest>): (f: seq<bool>)
    ensures |f| == |cs|
  {
    seq(|cs|, i requires 0 <= i < |cs| => cs[i] != EMPTY)
  }

  lemma FlagsPrefix(cs: seq<Digest>, n: nat)
    requires n <= |cs|
    ensures Flags(cs[..n]) == Flags(cs)[..n]
  {
  }

  /** The non-empty digests of a table, in index order. */
  function Packed(cs: seq<Digest>): (bs: seq<Byte>)
    ensures |bs| == HASH_SIZE * CountTrue(Flags(cs))
  {
    if cs == [] then [] else
      FlagsPrefix(cs, |cs| - 1);
      Packed(cs[..|cs| - 1]) + if cs[|cs| - 1] == EMPTY then [] else cs[|cs| - 1]
  }

  function Segment(cs: Children, s: nat): nat
    requires s < 4
  {
    Pack(Flags(cs)[64 * s..64 * (s + 1)])
  }

  /** The first n words of the bitmap. */
  function Bitmap(cs: Children, n: nat): (bs: seq<Byte>)
    requires n <= 4
    ensures |bs| == 8 * n
  {
    if n == 0 then [] else Bitmap(cs, n - 1) + ToLE(Segment(cs, n - 1), 8)
  }

  function LeafData(k: Key, v: Value): (d: seq<Byte>)
    ensures |d| >= 1
  {
    [NODE_LEAF] + k + v
  }

  function InternalData(cs: Children): (d: seq<Byte>)
    ensures |d| >= BITMAP_END
  {
    [NODE_INTERNAL] + Bitmap(cs, 4) + Packed(cs)
  }

  // ---------------------------------------------------------------- reading back

  /** Word s of the bitmap of any node buffer. */
  function WordAt(data: seq<Byte>, s: nat): nat
    requires s < 4 && |data| >= BITMAP_END
  {
    FromLE(data[1 + 8 * s..1 + 8 * (s + 1)])
  }

  lemma {:induction false} BitmapWord(cs: Children, n: nat, s: nat)
    requires s < n <= 4
    ensures Bitmap(cs, n)[8 * s..8 * (s + 1)] == ToLE(Segment(cs, s), 8)
  {
    if s < n - 1 {
      BitmapWord(cs, n - 1, s);
      assert Bitmap(cs, n)[8 * s..8 * (s + 1)] == Bitmap(cs, n - 1)[8 * s..8 * (s + 1)];
    }
  }

  lemma WordOfInternal(cs: Children, s: nat)
    requires s < 4
    ensures WordAt(InternalData(cs), s) == Segment(cs, s)
  {
    var d := InternalData(cs);
    BitmapWord(cs, 4, s);
    assert d[1 + 8 * s..1 + 8 * (s + 1)] == Bitmap(cs, 4)[8 * s..8 * (s + 1)];
    var f := Flags(cs)[64 * s..64 * (s + 1)];
    PackBound(f);
    LERoundTrip(Pack(f), 8);
  }

  /** `(bitmap[i / 64] >> (i % 64)) & 1 == 1` tells whether child i is present. */
  lemma BitOfInternal(cs: Children, i: nat)
    requires i < ARITY
    ensures BitAt(Segment(cs, i / 64), i % 64) <==> cs[i] != EMPTY
  {
    var s := i / 64;
    var f := Flags(cs)[64 * s..64 * (s + 1)];
    PackBit(f, i % 64);
    assert f[i % 64] == Flags(cs)[i];
  }

  /** The digests written before child i are a prefix, and child i follows them. */
  lemma {:induction false} PackedAt(cs: seq<Digest>, i: nat)
    requires i < |cs| && cs[i] != EMPTY
    ensures var at := HASH_SIZE * CountTrue(Flags(cs)[..i]);
            at + HASH_SIZE <= |Packed(cs)| && Packed(cs)[at..at + HASH_SIZE] == cs[i]
  {
    var init := cs[..|cs| - 1];
    assert Flags(cs)[..|cs| - 1] == Flags(init);
    if i == |cs| - 1 {
      assert Flags(cs)[..i] == Flags(init);
    } else {
      assert Flags(cs)[..i] == Flags(init)[..i];
      PackedAt(init, i);
      var at := HASH_SIZE * CountTrue(Flags(cs)[..i]);
      assert Packed(cs)[at..at + HASH_SIZE] == Packed(init)[at..at + HASH_SIZE];
    }
  }

  lemma PackedStep(cs: seq<Digest>, i: nat)
    requires i < |cs|
    ensures Packed(cs[..i + 1]) == Packed(cs[..i]) + if cs[i] == EMPTY then [] else cs[i]
    ensures |Packed(cs[..i + 1])| <= |Packed(cs)|
  {
    assert cs[..i + 1][..i] == cs[..i];
    assert Flags(cs) == Flags(cs[..i + 1]) + Flags(cs[i + 1..]);
    CountTrueSplit(Flags(cs[..i + 1]), Flags(cs[i + 1..]));
  }

  lemma PackedPrefixes(cs: Children) returns (p: seq<seq<Byte>>)
    ensures |p| == ARITY + 1 && p[0] == [] && p[ARITY] == Packed(cs)
    ensures forall i {:trigger cs[i]} :: 0 <= i < ARITY ==>
              p[i + 1] == (if cs[i] == EMPTY then p[i] else p[i] + cs[i]) && |p[i + 1]| <= |Packed(cs)|
  {
    p := seq(ARITY + 1, i requires 0 <= i <= ARITY => Packed(cs[..i]));
    forall i {:trigger cs[i]} | 0 <= i < ARITY
      ensures p[i + 1] == (if cs[i] == EMPTY then p[i] else p[i] + cs[i]) && |p[i + 1]| <= |Packed(cs)|
    {
      PackedStep(cs, i);
    }
    assert cs[..ARITY] == cs;
  }

  /** The population counts of the first n words of the bitmap. */
  function FullWords(data: seq<Byte>, n: nat): nat
    requires n <= 4 && |data| >= BITMAP_END
  {
    if n == 0 then 0 else FullWords(data, n - 1) + OnesCount(WordAt(data, n - 1))
  }

  /** The rank of index i: full words below it, then the masked word that holds it. */
  function Rank(data: seq<Byte>, i: nat): nat
    requires i < ARITY && |data| >= BITMAP_END
  {
    FullWords(data, i / 64) + OnesCount(LowBits(WordAt(data, i / 64), i % 64))
  }

  lemma SegmentCount(cs: Children, s: nat)
    requires s < 4
    ensures CountTrue(Flags(cs)[..64 * (s + 1)]) == CountTrue(Flags(cs)[..64 * s]) + OnesCount(Segment(cs, s))
  {
    var f := Flags(cs);
    PackCount(f[64 * s..64 * (s + 1)]);
    assert f[..64 * (s + 1)] == f[..64 * s] + f[64 * s..64 * (s + 1)];
    CountTrueSplit(f[..64 * s], f[64 * s..64 * (s + 1)]);
  }

  lemma {:induction false} FullWordsOfInternal(cs: Children, n: nat)
    requires n <= 4
    ensures FullWords(InternalData(cs), n) == CountTrue(Flags(cs)[..64 * n])
  {
    if n > 0 {
      FullWordsOfInternal(cs, n - 1);
      WordOfInternal(cs, n - 1);
      SegmentCount(cs, n - 1);
    }
  }

  /** The popcount offset is the number of present children before i. */
  lemma RankOfInternal(cs: Children, i: nat)
    requires i < ARITY
    ensures Rank(InternalData(cs), i) == CountTrue(Flags(cs)[..i])
  {
    var f, s, b := Flags(cs), i / 64, i % 64;
    var segment := f[64 * s..64 * (s + 1)];
    FullWordsOfInternal(cs, s);
    WordOfInternal(cs, s);
    PackCountBelow(segment, b);
    assert f[..i] == f[..64 * s] + segment[..b];
    CountTrueSplit(f[..64 * s], segment[..b]);
  }

  lemma ChildSlice(cs: Children, i: nat)
    requires i < ARITY && cs[i] != EMPTY
    ensures var d, at := InternalData(cs), BITMAP_END + HASH_SIZE * CountTrue(Flags(cs)[..i]);
            at + HASH_SIZE <= |d| && d[at..at + HASH_SIZE] == cs[i]
  {
    PackedAt(cs, i);
    var at := HASH_SIZE * CountTrue(Flags(cs)[..i]);
    SliceAfter([NODE_INTERNAL] + Bitmap(cs, 4), Packed(cs), at, at + HASH_SIZE);
  }

  lemma SliceAfter(a: seq<Byte>, b: seq<Byte>, lo: nat, hi: nat)
    requires lo <= hi <= |b|
    ensures (a + b)[|a| + lo..|a| + hi] == b[lo..hi]
  {
  }

  /** The reader's popcount selection finds exactly the child that was written, for every index. */
  lemma ReaderSelects(cs: Children, i: nat)
    requires i < ARITY
    ensures var d := InternalData(cs);
            var at := BITMAP_END + HASH_SIZE * Rank(d, i);
            && (BitAt(WordAt(d, i / 64), i % 64) <==> cs[i] != EMPTY)
            && (cs[i] != EMPTY ==> at + HASH_SIZE <= |d| && d[at..at + HASH_SIZE] == cs[i])
  {
    WordOfInternal(cs, i / 64);
    BitOfInternal(cs, i);
    RankOfInternal(cs, i);
    if cs[i] != EMPTY { ChildSlice(cs, i); }
  }

  /** Node buffers are unambiguous: different nodes have different bytes. */
  lemma LeafDataInjective(k: Key, v: Value, k': Key, v': Value)
    requires LeafData(k, v) == LeafData(k', v')
    ensures k == k' && v == v'
  {
    var d, d' := LeafData(k, v), LeafData(k', v');
    assert k == d[1..33] && v == d[33..];
    assert k' == d'[1..33] && v' == d'[33..];
  }

  lemma InternalDataInjective(cs: Children, cs': Children)
    requires InternalData(cs) == InternalData(cs')
    ensures cs == cs'
  {
    forall i | 0 <= i < ARITY ensures cs[i] == cs'[i] {
      ReaderSelects(cs, i);
      ReaderSelects(cs', i);
    }
  }

  // ---------------------------------------------------------------- byte by byte

  // What is said here names positions and values only, and none of the functions that build or read a buffer.

  /** A leaf: the byte 1, the key, and the value up to the end. */
  predicate LeafBytes(d: seq<Byte>, k: Key, v: Value) {
    |d| == 33 + |v| && d[0] == 1 && d[1..33] == k && d[33..] == v
  }

  predicate Zeros(c: Digest) {
    forall i :: 0 <= i < 32 ==> c[i] == 0
  }

  /** How many of the first i children are not all zeros. */
  function Present(cs: Children, i: nat): nat
    requires i <= 256
  {
    if i == 0 then 0 else Present(cs, i - 1) + if Zeros(cs[i - 1]) then 0 else 1
  }

  /** An internal node: the byte 0; 32 bytes in which bit i % 8 of byte i / 8 says whether child i is there; and the
      digests of these children one behind the other. */
  predicate NodeBytes(d: seq<Byte>, cs: Children) {
    && |d| == 33 + 32 * Present(cs, 256) && d[0] == 0
    && (forall i :: 0 <= i < 256 ==> (Digit(d[1 + i / 8], i % 8) == 1 <==> !Zeros(cs[i])))
    && forall i :: 0 <= i < 256 && !Zeros(cs[i]) ==>
         var at := 33 + 32 * Present(cs, i); at + 32 <= |d| && d[at..at + 32] == cs[i]
  }

  lemma LeafLaw(d: seq<Byte>, k: Key, v: Value)
    ensures d == LeafData(k, v) <==> LeafBytes(d, k, v)
  {
    var e := LeafData(k, v);
    assert e[1..33] == k && e[33..] == v;
    if LeafBytes(d, k, v) {
      assert d == [d[0]] + d[1..33] + d[33..];
    }
  }

  lemma ZerosEmpty(c: Digest)
    ensures Zeros(c) <==> c == EMPTY
  {
    assert forall i :: 0 <= i < 32 ==> EMPTY[i] == 0;
  }

  lemma {:induction false} PresentCount(cs: Children, i: nat)
    requires i <= 256
    ensures Present(cs, i) == CountTrue(Flags(cs)[..i])
  {
    if i > 0 {
      PresentCount(cs, i - 1);
      ZerosEmpty(cs[i - 1]);
      assert Flags(cs)[..i][..i - 1] == Flags(cs)[..i - 1];
    }
  }

  /** Byte i / 8 of the bitmap is byte i / 8 % 8 of word i / 64. */
  lemma BitmapByte(cs: Children, i: nat)
    requires i < 256
    ensures InternalData(cs)[1 + i / 8] == ToLE(Segment(cs, i / 64), 8)[i / 8 % 8]
  {
    hide Segment, ToLE;
    var s, j := i / 64, i / 8 % 8;
    BitmapWord(cs, 4, s);
    assert 1 + i / 8 == 1 + (8 * s + j);
    assert InternalData(cs)[1 + (8 * s + j)] == Bitmap(cs, 4)[8 * s + j];
    assert Bitmap(cs, 4)[8 * s..8 * (s + 1)][j] == Bitmap(cs, 4)[8 * s + j];
  }

  lemma BitmapBit(cs: Children, i: nat)
    requires i < 256
    ensures Digit(InternalData(cs)[1 + i / 8], i % 8) == 1 <==> !Zeros(cs[i])
  {
    hide Segment, ToLE, Digit, BitAt, InternalData;
    BitmapByte(cs, i);
    BitOfByte(Segment(cs, i / 64), 8, i / 8 % 8, i % 8);
    DigitOfBit(ToLE(Segment(cs, i / 64), 8)[i / 8 % 8], i % 8);
    BitOfInternal(cs, i);
    ZerosEmpty(cs[i]);
    assert 8 * (i / 8 % 8) + i % 8 == i % 64;
  }

  lemma NodeSound(cs: Children)
    ensures NodeBytes(InternalData(cs), cs)
  {
    hide Digit, Zeros, Present;
    PresentCount(cs, 256);
    assert Flags(cs)[..256] == Flags(cs);
    forall i | 0 <= i < 256 ensures Digit(InternalData(cs)[1 + i / 8], i % 8) == 1 <==> !Zeros(cs[i]) {
      BitmapBit(cs, i);
    }
    forall i | 0 <= i < 256 && !Zeros(cs[i])
      ensures var at := 33 + 32 * Present(cs, i);
              at + 32 <= |InternalData(cs)| && InternalData(cs)[at..at + 32] == cs[i]
    {
      PresentCount(cs, i);
      ZerosEmpty(cs[i]);
      ChildSlice(cs, i);
    }
  }

  // ---------------------------------------------------------------- the two decoders and the encoder

  method EmptyChildren() returns (children: array<Digest>)
    ensures fresh(children) && children.Length == ARITY
    ensures forall j :: 0 <= j < ARITY ==> children[j] == EMPTY
  {
    children := new Digest[ARITY];
    for i := 0 to ARITY
      invariant forall j :: 0 <= j < i ==> children[j] == EMPTY
    {
      children[i] := EMPTY;
    }
  }

  method ReadBitmap(data: seq<Byte>, ghost cs: Children) returns (bitmap: array<nat>)
    requires data == InternalData(cs)
    ensures fresh(bitmap) && bitmap.Length == 4
    ensures forall s :: 0 <= s < 4 ==> bitmap[s] == Segment(cs, s)
  {
    bitmap := new nat[4];
    for i := 0 to 4
      invariant forall s :: 0 <= s < i ==> bitmap[s] == Segment(cs, s)
    {
      WordOfInternal(cs, i);
      bitmap[i] := WordAt(data, i);
    }
  }

  /** The bitmap scan of the updater: recovers the whole child table. */
  method DecodeChildren(data: seq<Byte>, children: array<Digest>, ghost cs: Children)
    requires data == InternalData(cs)
    requires children.Length == ARITY && forall j :: 0 <= j < ARITY ==> children[j] == EMPTY
    modifies children
    ensures children[..] == cs
  {
    var bitmap := ReadBitmap(data, cs);
    var offset := BITMAP_END;
    for i := 0 to ARITY
      invariant offset == BITMAP_END + HASH_SIZE * CountTrue(Flags(cs)[..i])
      invariant forall j :: 0 <= j < i ==> children[j] == cs[j]
      invariant forall j :: i <= j < ARITY ==> children[j] == EMPTY
      modifies children
    {
      BitOfInternal(cs, i);
      FlagsStep(cs, i);
      if BitAt(bitmap[i / 64], i % 64) {
        ChildSlice(cs, i);
        children[i] := data[offset..offset + HASH_SIZE];
        offset := offset + HASH_SIZE;
      }
    }
  }

  /** The popcount selection of the reader. */
  method SelectChild(data: seq<Byte>, idx: Byte, ghost cs: Children) returns (child: Option<Digest>)
    requires data == InternalData(cs)
    ensures child == if cs[idx] == EMPTY then None else Some(cs[idx])
  {
    ReaderSelects(cs, idx);
    var segmentIdx, bitIdx := idx / 64, idx % 64;
    var segment := WordAt(data, segmentIdx);
    if !BitAt(segment, bitIdx) {
      return None;
    }
    var childIdx := 0;
    for i := 0 to segmentIdx
      invariant childIdx == FullWords(data, i)
    {
      childIdx := childIdx + OnesCount(WordAt(data, i));
    }
    childIdx := childIdx + OnesCount(LowBits(segment, bitIdx));
    var offset := BITMAP_END + childIdx * HASH_SIZE;
    child := Some(data[offset..offset + HASH_SIZE]);
  }

  /** The flags of a table up to index i, the rest cleared. */
  ghost function FlagsBelow(cs: Children, i: nat): seq<bool>
    requires i <= ARITY
  {
    Flags(cs)[..i] + seq(ARITY - i, _ => false)
  }

  ghost function Below(cs: Children, i: nat, s: nat): nat
    requires i <= ARITY && s < 4
  {
    Pack(FlagsBelow(cs, i)[64 * s..64 * (s + 1)])
  }

  lemma BelowStep(cs: Children, i: nat)
    requires i < ARITY
    ensures forall s :: 0 <= s < 4 ==>
              Below(cs, i + 1, s) ==
              if s == i / 64 && cs[i] != EMPTY then SetBit(Below(cs, i, s), i % 64) else Below(cs, i, s)
  {
    var f, g := FlagsBelow(cs, i), FlagsBelow(cs, i + 1);
    assert g == if cs[i] == EMPTY then f else f[i := true];
    forall s | 0 <= s < 4
      ensures Below(cs, i + 1, s) ==
              if s == i / 64 && cs[i] != EMPTY then SetBit(Below(cs, i, s), i % 64) else Below(cs, i, s)
    {
      var fs := f[64 * s..64 * (s + 1)];
      if s == i / 64 && cs[i] != EMPTY {
        assert g[64 * s..64 * (s + 1)] == fs[i % 64 := true];
        PackSet(fs, i % 64);
      } else {
        assert g[64 * s..64 * (s + 1)] == fs;
      }
    }
  }

  lemma FlagsStep(cs: Children, i: nat)
    requires i < ARITY
    ensures CountTrue(Flags(cs)[..i + 1]) == CountTrue(Flags(cs)[..i]) + if cs[i] == EMPTY then 0 else 1
  {
    assert Flags(cs)[..i + 1][..i] == Flags(cs)[..i];
  }

  method BuildBitmap(children: Children) returns (bitmap: seq<nat>, active: nat)
    ensures |bitmap| == 4
    ensures forall s :: 0 <= s < 4 ==> bitmap[s] == Segment(children, s)
    ensures active == CountTrue(Flags(children))
  {
    bitmap := [0, 0, 0, 0];
    active := 0;
    forall s | 0 <= s < 4 ensures Below(children, 0, s) == 0 {
      PackNone(FlagsBelow(children, 0)[64 * s..64 * (s + 1)]);
    }
    for i := 0 to ARITY
      invariant |bitmap| == 4
      invariant forall s :: 0 <= s < 4 ==> bitmap[s] == Below(children, i, s)
      invariant active == CountTrue(Flags(children)[..i])
    {
      var segment, bit := i / 64, i % 64;
      BelowStep(children, i);
      FlagsStep(children, i);
      if children[i] != EMPTY {
        bitmap := bitmap[segment := SetBit(bitmap[segment], bit)];
        active := active + 1;
      }
    }
    assert FlagsBelow(children, ARITY) == Flags(children);
    assert Flags(children)[..ARITY] == Flags(children);
  }

  method PutBitmap(buf: array<Byte>, bitmap: seq<nat>, ghost cs: Children)
    requires buf.Length >= BITMAP_END && buf[0] == NODE_INTERNAL && |bitmap| == 4
    requires forall s :: 0 <= s < 4 ==> bitmap[s] == Segment(cs, s)
    modifies buf
    ensures buf[..BITMAP_END] == [NODE_INTERNAL] + Bitmap(cs, 4)
  {
    for i := 0 to 4
      invariant buf[..1 + 8 * i] == [NODE_INTERNAL] + Bitmap(cs, i)
    {
      PutBytes(buf, 1 + 8 * i, ToLE(bitmap[i], 8));
    }
  }

  method PutDigests(buf: array<Byte>, bitmap: seq<nat>, children: Children, ghost prefix: seq<Byte>)
    requires |bitmap| == 4
    requires forall s :: 0 <= s < 4 ==> bitmap[s] == Segment(children, s)
    requires buf.Length == BITMAP_END + |Packed(children)| && buf[..BITMAP_END] == prefix
    modifies buf
    ensures buf[..] == prefix + Packed(children)
  {
    hide Packed, Segment, BitAt;
    ghost var p := PackedPrefixes(children);
    var offset := BITMAP_END;
    for i := 0 to ARITY
      invariant offset == BITMAP_END + |p[i]| <= buf.Length
      invariant buf[..offset] == prefix + p[i]
    {
      BitOfInternal(children, i);
      if BitAt(bitmap[i / 64], i % 64) {
        var child := children[i];
        assert (prefix + p[i]) + child == prefix + p[i + 1];
        PutBytes(buf, offset, child);
        offset := offset + HASH_SIZE;
      }
    }
    assert buf[..offset] == buf[..];
  }

  /** `storeInternal` up to hashing: two passes over the children into an exactly sized buffer. */
  method EncodeInternal(children: Children) returns (data: seq<Byte>)
    ensures data == InternalData(children) && NodeBytes(data, children)
  {
    hide NodeBytes;
    var bitmap, active := BuildBitmap(children);
    var buf := new Byte[1 + 32 + active * HASH_SIZE];
    buf[0] := NODE_INTERNAL;
    PutBitmap(buf, bitmap, children);
    PutDigests(buf, bitmap, children, [NODE_INTERNAL] + Bitmap(children, 4));
    data := buf[..];
    NodeSound(children);
  }

  /** `copy(buf[at:], bs)` */
  method PutBytes(buf: array<Byte>, at: nat, bs: seq<Byte>)
    requires at + |bs| <= buf.Length
    modifies buf
    ensures buf[..at + |bs|] == old(buf[..at]) + bs
    ensures buf[at + |bs|..] == old(buf[at + |bs|..])
  {
    for i := 0 to |bs|
      invariant buf[..at + i] == old(buf[..at]) + bs[..i]
      invariant buf[at + i..] == old(buf[at + i..])
    {
      buf[at + i] := bs[i];
      assert buf[at + i + 1..] == old(buf[at + i..])[1..];
    }
  }
}
