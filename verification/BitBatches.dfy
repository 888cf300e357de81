/** Batches of 31 slots: what single array writes of smt-v2 do to the tree that a batch holds. */
module BitBatches {
  import opened Words
  import opened BitKeys
  import opened BitTreeModel

  /** Slot i is where a node of this height sits in its batch. */
  predicate LevelOk(i: nat, height: nat) {
    match height % 4
    case 0 => i == 0
    case 3 => 1 <= i <= 2
    case 2 => 3 <= i <= 6
    case _ => 7 <= i <= 14
  }

  lemma ClearAll(b: Batch, i: nat)
    requires forall j :: 1 <= j < 31 ==> b[j] == Nil
    ensures Clear(b, i)
    decreases 31 - i
  {
    if i < 15 {
      ClearAll(b, 2 * i + 1);
      ClearAll(b, 2 * i + 2);
    }
  }

  /** Writing the two children of slot i leaves what is below them. */
  lemma PutChildren(b: Batch, i: nat, l: Slot, r: Slot)
    requires i < 15
    ensures var b' := b[2 * i + 1 := l][2 * i + 2 := r]; SameBelow(b, b', 2 * i + 1) && SameBelow(b, b', 2 * i + 2)
  {
    var b' := b[2 * i + 1 := l][2 * i + 2 := r];
    forall j | 0 <= j < 31 && (Below(2 * i + 1, j) || Below(2 * i + 2, j)) ensures b'[j] == b[j] {
      BelowChildren(i, j);
    }
  }

  /** A leaf written into a clear place. */
  lemma PutLeaf(hash: Hash, b: Batch, i: nat, m: Map, h: nat)
    requires i < 15 && h <= BITS && |m| == 1 && Clear(b, 2 * i + 1) && Clear(b, 2 * i + 2)
    ensures SubOk(hash, b[2 * i + 1 := Data(TheKey(m))][2 * i + 2 := Data(m[TheKey(m)])], i, m, h)
  {
    var l, r := Data(TheKey(m)), Data(m[TheKey(m)]);
    PutChildren(b, i, l, r);
    var b' := b[2 * i + 1 := l][2 * i + 2 := r];
    ClearFrame(b, b', 2 * i + 1);
    ClearFrame(b, b', 2 * i + 2);
  }

  /** An interior node written above its two subtrees. */
  lemma PutInterior(hash: Hash, b: Batch, i: nat, m: Map, h: nat)
    requires i < 15 && 0 < h <= BITS && |m| >= 2
    requires SubOk(hash, b, 2 * i + 1, Half(m, BITS - h, false), h - 1)
      && SubOk(hash, b, 2 * i + 2, Half(m, BITS - h, true), h - 1)
    ensures SubOk(hash, b[2 * i + 1 := NodeOf(hash, Half(m, BITS - h, false), h - 1)][2 * i + 2 :=
      NodeOf(hash, Half(m, BITS - h, true), h - 1)], i, m, h)
  {
    hide SameBelow, NodeOf, Half;
    var l, r := NodeOf(hash, Half(m, BITS - h, false), h - 1), NodeOf(hash, Half(m, BITS - h, true), h - 1);
    PutChildren(b, i, l, r);
    var b' := b[2 * i + 1 := l][2 * i + 2 := r];
    SubFrame(hash, b, b', 2 * i + 1, Half(m, BITS - h, false), h - 1);
    SubFrame(hash, b, b', 2 * i + 2, Half(m, BITS - h, true), h - 1);
  }

  /** Removing a shortcut's key and value clears its place. */
  lemma DropLeaf(hash: Hash, b: Batch, i: nat, m: Map, h: nat)
    requires i < 15 && h <= BITS && |m| == 1 && SubOk(hash, b, i, m, h)
    ensures Clear(b[2 * i + 1 := Nil][2 * i + 2 := Nil], i)
  {
    PutChildren(b, i, Nil, Nil);
    var b' := b[2 * i + 1 := Nil][2 * i + 2 := Nil];
    ClearFrame(b, b', 2 * i + 1);
    ClearFrame(b, b', 2 * i + 2);
  }

  /** Slot i's batch after the leaf of m moved up to i from its child c, which is in the same batch or not. */
  function MovedUp(b: Batch, i: nat, c: nat, key: Slot, val: Slot): Batch
    requires i < 15 && i < c
  {
    var b1 := if c < 15 then b[2 * c + 1 := Nil][2 * c + 2 := Nil] else b;
    b1[2 * i + 1 := key][2 * i + 2 := val]
  }

  lemma MoveLeafUp(hash: Hash, b: Batch, i: nat, c: nat, m: Map, h: nat)
    requires i < 15 && 0 < h <= BITS && |m| == 1 && (c == 2 * i + 1 || c == 2 * i + 2)
    requires SubOk(hash, b, c, m, h - 1) && Clear(b, if c == 2 * i + 1 then 2 * i + 2 else 2 * i + 1)
    ensures SubOk(hash, MovedUp(b, i, c, Data(TheKey(m)), Data(m[TheKey(m)])), i, m, h)
  {
    hide SubOk;
    var o := if c == 2 * i + 1 then 2 * i + 2 else 2 * i + 1;
    var b1 := b;
    if c < 15 {
      b1 := b[2 * c + 1 := Nil][2 * c + 2 := Nil];
      DropLeaf(hash, b, c, m, h - 1);
      forall j | 0 <= j < 31 && Below(o, j) ensures b1[j] == b[j] {
        BelowChildren(i, j);
        assert Below(c, 2 * c + 1) && Below(c, 2 * c + 2);
      }
      ClearFrame(b, b1, o);
    }
    PutLeaf(hash, b1, i, m, h);
  }

  lemma MovedUpFrame(b: Batch, i: nat, c: nat, key: Slot, val: Slot)
    requires i < 15 && (c == 2 * i + 1 || c == 2 * i + 2)
    ensures forall j :: 0 <= j < 31 && !Below(i, j) ==> MovedUp(b, i, c, key, val)[j] == b[j]
  {
    assert Below(i, 2 * i + 1) && Below(i, 2 * i + 2);
    if c < 15 { assert Below(i, 2 * c + 1) && Below(i, 2 * c + 2); }
  }

  lemma OneLeaf(hash: Hash, m: Map, h: nat)
    requires |m| == 1 && h <= BITS
    ensures Preimage(hash, m, h) == [TheKey(m), m[TheKey(m)], [HeightTag(h)]]
    ensures forall b: Batch, i: nat :: i < 15 && SubOk(hash, b, i, m, h) ==>
      b[2 * i + 1] == Data(TheKey(m)) && b[2 * i + 2] == Data(m[TheKey(m)])
  {
  }

  /** The inputs of an interior hash: `DefaultLeaf` stands for a missing child. */
  function SideBytes(node: Slot): seq<Byte> {
    if node.Node? then node.digest else DEFAULT_LEAF
  }

  lemma InteriorPreimage(hash: Hash, m: Map, h: nat)
    requires |m| >= 2 && 0 < h <= BITS
    ensures [SideBytes(NodeOf(hash, Half(m, BITS - h, false), h - 1)),
      SideBytes(NodeOf(hash, Half(m, BITS - h, true), h - 1))]
         == Preimage(hash, m, h)
    ensures NodeOf(hash, Half(m, BITS - h, false), h - 1) == Nil ==> NodeOf(hash, Half(m, BITS - h, true), h - 1).Node?
    ensures forall s: Map, g: nat :: g <= BITS ==> NodeOf(hash, s, g) == Nil || NodeOf(hash, s, g).Node?
  {
    HalvesJoin(m, BITS - h);
  }

  /** `make([][]byte, 31, 31)` and its slot 0. */
  method NewBatch(first: Slot) returns (batch: array<Slot>)
    ensures fresh(batch) && batch.Length == 31 && batch[0] == first && forall j :: 1 <= j < 31 ==> batch[j] == Nil
  {
    batch := new Slot[31](i => if i == 0 then first else Nil);
  }

  /** Nothing but slot 0 and what is below slot i changed. */
  ghost predicate Outside(b: seq<Slot>, b': seq<Slot>, i: nat) {
    |b| == |b'| == 31 && forall j :: 0 < j < 31 && !Below(i, j) ==> b'[j] == b[j]
  }

  lemma OutsideBoth(a: seq<Slot>, b: seq<Slot>, c: seq<Slot>, i: nat)
    requires Outside(a, b, 2 * i + 1) && Outside(b, c, 2 * i + 2)
    ensures Outside(a, c, i)
  {
    InsideNode(i);
  }

  lemma OutsideTwice(a: seq<Slot>, b: seq<Slot>, c: seq<Slot>, i: nat)
    requires Outside(a, b, i) && Outside(b, c, i)
    ensures Outside(a, c, i)
  {
  }

  /** Work below one child leaves the other child and what is below it. */
  lemma OtherSide(hash: Hash, b: Batch, b': Batch, i: nat, c: nat, half: Map, h: nat)
    requires i < 15 && h <= BITS && (c == 2 * i + 1 || c == 2 * i + 2)
    requires Outside(b, b', c)
    ensures var o := 4 * i + 3 - c; b'[o] == b[o] && (SubOk(hash, b, o, half, h) ==> SubOk(hash, b', o, half, h))
  {
    hide SubOk;
    var o := 4 * i + 3 - c;
    BelowChildren(i, o);
    forall j | 0 <= j < 31 && Below(o, j) ensures b'[j] == b[j] {
      BelowChildren(i, j);
    }
    if SubOk(hash, b, o, half, h) {
      SubFrame(hash, b, b', o, half, h);
    }
  }

  /** What is below a child is below the node. */
  lemma InsideNode(i: nat)
    ensures forall j :: Below(2 * i + 1, j) || Below(2 * i + 2, j) ==> Below(i, j)
  {
    forall j | Below(2 * i + 1, j) || Below(2 * i + 2, j) ensures Below(i, j) {
      BelowChildren(i, j);
    }
  }

  lemma ClearIsEmpty(hash: Hash, b: Batch, i: nat, h: nat)
    requires i < 15 && h <= BITS
    ensures SubOk(hash, b, i, map[], h) <==> Clear(b, i)
    ensures Clear(b, i) ==> Clear(b, 2 * i + 1) && Clear(b, 2 * i + 2)
  {
  }

  lemma EmptyBatch(hash: Hash, b: Batch, m: Map, h: nat)
    requires |m| == 0 && h <= BITS && forall j :: 1 <= j < 31 ==> b[j] == Nil
    ensures SubOk(hash, b, 0, m, h)
  {
    ClearAll(b, 0);
  }

  /** Both children nil: the place is clear. */
  lemma PutNothing(hash: Hash, b: Batch, i: nat, m: Map, h: nat)
    requires i < 15 && 0 < h <= BITS && |m| == 0
    requires SubOk(hash, b, 2 * i + 1, Half(m, BITS - h, false), h - 1)
      && SubOk(hash, b, 2 * i + 2, Half(m, BITS - h, true), h - 1)
    ensures SubOk(hash, b[2 * i + 1 := Nil][2 * i + 2 := Nil], i, m, h)
  {
    HalvesJoin(m, BITS - h);
    PutChildren(b, i, Nil, Nil);
    var b' := b[2 * i + 1 := Nil][2 * i + 2 := Nil];
    ClearFrame(b, b', 2 * i + 1);
    ClearFrame(b, b', 2 * i + 2);
  }

  /** A leaf on one side, nothing on the other: the whole map is on one side. */
  lemma OneSided(hash: Hash, b: Batch, i: nat, m: Map, h: nat, right: bool)
    requires i < 15 && 0 < h <= BITS && |Half(m, BITS - h, right)| == 1 && |Half(m, BITS - h, !right)| == 0
    requires SubOk(hash, b, 2 * i + 1, Half(m, BITS - h, false), h - 1)
      && SubOk(hash, b, 2 * i + 2, Half(m, BITS - h, true), h - 1)
    ensures |m| == 1 && Half(m, BITS - h, right) == m
      && SubOk(hash, b, if right then 2 * i + 2 else 2 * i + 1, m, h - 1)
    ensures Clear(b, if right then 2 * i + 1 else 2 * i + 2)
  {
    hide Half;
    HalvesJoin(m, BITS - h);
    assert Half(m, BITS - h, !right) == map[];
    assert Half(m, BITS - h, right) == m;
  }

  lemma BottomSide(hash: Hash, b: Batch, i: nat, m: Map, h: nat)
    requires i >= 15 && h <= BITS
    ensures SubOk(hash, b, i, m, h)
  {
  }
}
