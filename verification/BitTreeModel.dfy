/** What the binary trie of smt-v2 stands for.

    The canonical tree of a map: empty for no key, a shortcut leaf for one key, an interior
    node for two or more.  So a leaf sits at the highest subtree that holds only its key, and
    its digest is tagged with that height.  Four levels of nodes share one batch of 31 slots.
 */
module BitTreeModel {
  import opened Words
  import opened BitKeys

  type Digest = Bytes32
  type Value = Bytes32
  type Map = map<Key, Value>

  /** `hash func(data ...[]byte) []byte`: any function of the list of its arguments. */
  type Hash = seq<seq<Byte>> -> Digest

  const DEFAULT_LEAF: seq<Byte> := [0]

  /** A slot of a batch: nil, the flag in slot 0, a digest with its shortcut flag, or a key or value of a shortcut. */
  datatype Slot = Nil | Mark(shortcut: bool) | Node(digest: Digest, shortcut: bool) | Data(bytes: Bytes32)

  type Batch = b: seq<Slot> | |b| == 31
    witness [Nil, Nil, Nil, Nil, Nil, Nil, Nil, Nil, Nil, Nil, Nil, Nil, Nil, Nil, Nil, Nil,
             Nil, Nil, Nil, Nil, Nil, Nil, Nil, Nil, Nil, Nil, Nil, Nil, Nil, Nil, Nil]
  type Store = map<Digest, Batch>

  /** What `copy(node[:], root)` makes of a nil root. */
  const ZERO: Digest := [0, 0, 0, 0, 0, 0, 0, 0, 0, 0, 0, 0, 0, 0, 0, 0,
                          0, 0, 0, 0, 0, 0, 0, 0, 0, 0, 0, 0, 0, 0, 0, 0]

  /** A write: None deletes (`DefaultLeaf` in the source). */
  datatype KV = KV(k: Key, v: Option<Value>)

  /** `byte(height)` */
  function HeightTag(h: nat): Byte {
    h % 256
  }

  // ---------------------------------------------------------------- the canonical tree

  /** The entries whose key has the given bit at depth d. */
  function Half(m: Map, d: nat, right: bool): (s: Map)
    requires d < BITS
  {
    map k | k in m && BitIsSet(k, d) == right :: m[k]
  }

  ghost function TheKey(m: Map): (k: Key)
    requires |m| > 0
    ensures k in m
  {
    var k :| k in m.Keys;
    k
  }

  /** What is hashed for the subtree of a non-empty map at a height. */
  ghost function Preimage(hash: Hash, m: Map, h: nat): seq<seq<Byte>>
    requires |m| > 0 && h <= BITS
    decreases h, 0, hash
  {
    if |m| == 1 || h == 0 then [TheKey(m), m[TheKey(m)], [HeightTag(h)]]
    else [Side(hash, Half(m, BITS - h, false), h - 1), Side(hash, Half(m, BITS - h, true), h - 1)]
  }

  ghost function Side(hash: Hash, m: Map, h: nat): seq<Byte>
    requires h <= BITS
    decreases h, 1, hash
  {
    if |m| == 0 then DEFAULT_LEAF else hash(Preimage(hash, m, h))
  }

  ghost function NodeOf(hash: Hash, m: Map, h: nat): Slot
    requires h <= BITS
  {
    if |m| == 0 then Nil else Node(hash(Preimage(hash, m, h)), |m| == 1)
  }

  ghost function RootOf(hash: Hash, m: Map, h: nat): Option<Digest>
    requires h <= BITS
  {
    if |m| == 0 then None else Some(hash(Preimage(hash, m, h)))
  }

  ghost predicate Agree(keys: set<Key>, d: nat)
    requires d <= BITS
  {
    forall a, b :: a in keys && b in keys ==> SameBits(a, b, d)
  }

  lemma OneEntry(m: Map, k: Key)
    requires |m| == 1 && k in m
    ensures m == map[k := m[k]] && TheKey(m) == k
  {
    assert m.Keys == {k} by {
      assert |m.Keys - {k}| == 0;
    }
  }

  lemma HalfAgree(keys: set<Key>, d: nat, right: bool)
    requires d < BITS && Agree(keys, d) && forall k :: k in keys ==> BitIsSet(k, d) == right
    ensures Agree(keys, d + 1)
  {
  }

  lemma HalvesJoin(m: Map, d: nat)
    requires d < BITS
    ensures m == Half(m, d, false) + Half(m, d, true)
    ensures |m| == |Half(m, d, false)| + |Half(m, d, true)|
  {
    var l, r := Half(m, d, false), Half(m, d, true);
    HalvesSplit(m, d);
    hide Half;
    SetsJoin(m.Keys, l.Keys, r.Keys);
  }

  lemma HalvesSplit(m: Map, d: nat)
    requires d < BITS
    ensures var l, r := Half(m, d, false), Half(m, d, true); m == l + r && m.Keys == l.Keys + r.Keys && l.Keys !! r.Keys
  {
    hide BitIsSet;
  }

  lemma SetsJoin(a: set<Key>, b: set<Key>, c: set<Key>)
    requires a == b + c && b !! c
    ensures |a| == |b| + |c|
  {
  }

  /** Keys that agree on all bits are one key. */
  lemma OneAtBottom(m: Map)
    requires Agree(m.Keys, BITS)
    ensures |m| <= 1
  {
    if |m| > 0 {
      var k := TheKey(m);
      forall k' | k' in m ensures k' == k {
        assert SameBits(k', k, BITS);
        BitsDetermine(k', k);
      }
      assert m.Keys == {k};
    }
  }

  // ---------------------------------------------------------------- what is hashed

  /** A child in the input of its parent's hash: its digest, or the byte 0 when there is none. */
  function Child(digest: Option<Digest>): seq<Byte> {
    if digest.Some? then digest.value else [0]
  }

  /** l and r are the entries whose key has bit d clear, and set. */
  predicate SplitAt(m: Map, l: Map, r: Map, d: nat)
    requires d < BITS
  {
    m == l + r && (forall k :: k in l ==> !BitOf(k, d)) && (forall k :: k in r ==> BitOf(k, d))
  }

  lemma HalvesAre(m: Map, l: Map, r: Map, d: nat)
    requires d < BITS && SplitAt(m, l, r, d)
    ensures l == Half(m, d, false) && r == Half(m, d, true)
  {
    hide BitOf, BitIsSet;
    forall k: Key ensures BitIsSet(k, d) <==> BitOf(k, d) {
      BitIsBitOf(k, d);
    }
  }

  /** The digest of a subtree at height h, where l and r are its entries on both sides of bit 256 - h: none for no
      entry; for one entry the hash of key, value and the height in one byte, in which 256 is 0; otherwise the hash of
      its two children. */
  lemma RootLaw(hash: Hash, m: Map, l: Map, r: Map, h: nat)
    requires h <= BITS && Agree(m.Keys, BITS - h)
    requires h > 0 ==> SplitAt(m, l, r, 256 - h)
    ensures m == map[] ==> RootOf(hash, m, h) == None
    ensures |m| == 1 ==>
      forall k :: k in m ==> RootOf(hash, m, h) == Some(hash([k, m[k], [if h == 256 then 0 else h]]))
    ensures |m| >= 2 ==>
      h > 0 &&
      RootOf(hash, m, h) == Some(hash([Child(RootOf(hash, l, h - 1)), Child(RootOf(hash, r, h - 1))]))
  {
    hide SplitAt, Half, Preimage, Side, HeightTag, Child, Agree;
    if |m| == 1 {
      forall k | k in m ensures RootOf(hash, m, h) == Some(hash([k, m[k], [if h == 256 then 0 else h]])) {
        LeafLaw(hash, m, k, h);
      }
    } else if |m| >= 2 {
      LeafOrInterior(hash, m, h);
      HalvesAre(m, l, r, 256 - h);
      SidesLaw(hash, m, h);
    }
  }

  lemma LeafLaw(hash: Hash, m: Map, k: Key, h: nat)
    requires |m| == 1 && k in m && h <= BITS
    ensures Preimage(hash, m, h) == [k, m[k], [if h == 256 then 0 else h]]
  {
    OneEntry(m, k);
  }

  lemma SidesLaw(hash: Hash, m: Map, h: nat)
    requires |m| >= 2 && 0 < h <= BITS
    ensures var l, r := Half(m, BITS - h, false), Half(m, BITS - h, true);
      Preimage(hash, m, h) == [Child(RootOf(hash, l, h - 1)), Child(RootOf(hash, r, h - 1))]
  {
    hide Half;
    SideLaw(hash, Half(m, BITS - h, false), h - 1);
    SideLaw(hash, Half(m, BITS - h, true), h - 1);
  }

  lemma SideLaw(hash: Hash, m: Map, h: nat)
    requires h <= BITS
    ensures Side(hash, m, h) == Child(RootOf(hash, m, h))
  {
    hide Preimage;
  }

  // ---------------------------------------------------------------- digests determine maps

  /** Every preimage of the tree is in U. */
  ghost predicate NodesIn(hash: Hash, U: iset<seq<seq<Byte>>>, m: Map, h: nat)
    requires h <= BITS
    decreases h, hash
  {
    |m| > 0 ==>
      && Preimage(hash, m, h) in U
      && (|m| >= 2 && h > 0 ==>
           NodesIn(hash, U, Half(m, BITS - h, false), h - 1) && NodesIn(hash, U, Half(m, BITS - h, true), h - 1))
  }

  ghost predicate CollisionFree(hash: Hash, U: iset<seq<seq<Byte>>>) {
    && (forall x, y :: x in U && y in U && hash(x) == hash(y) ==> x == y)
    && (forall x :: x in U ==> hash(x) != ZERO)
  }

  ghost predicate Placed(m: Map, h: nat) {
    h <= BITS && Agree(m.Keys, BITS - h)
  }

  lemma PlacedHalf(m: Map, h: nat, right: bool)
    requires 0 < h && Placed(m, h)
    ensures Placed(Half(m, BITS - h, right), h - 1)
  {
    var s := Half(m, BITS - h, right);
    assert Agree(s.Keys, BITS - h);
    HalfAgree(s.Keys, BITS - h, right);
  }

  lemma LeafOrInterior(hash: Hash, m: Map, h: nat)
    requires |m| > 0 && Placed(m, h)
    ensures if |m| == 1 then Preimage(hash, m, h) == [TheKey(m), m[TheKey(m)], [HeightTag(h)]]
            else |Preimage(hash, m, h)| == 2 && h > 0
  {
    if h == 0 { OneAtBottom(m); }
  }

  lemma OwnPreimage(hash: Hash, U: iset<seq<seq<Byte>>>, m: Map, h: nat)
    requires |m| > 0 && h <= BITS && NodesIn(hash, U, m, h)
    ensures Preimage(hash, m, h) in U
  {
  }

  /** Equal digests: one map, and one height up to the tag of a leaf; or the two trees exhibit a collision. */
  lemma {:induction false} Binding(hash: Hash, P: iset<seq<seq<Byte>>>, m1: Map, h1: nat, m2: Map, h2: nat)
    returns (x: seq<seq<Byte>>, y: seq<seq<Byte>>)
    requires |m1| > 0 && |m2| > 0 && Placed(m1, h1) && Placed(m2, h2)
    requires NodesIn(hash, P, m1, h1) && NodesIn(hash, P, m2, h2)
    requires hash(Preimage(hash, m1, h1)) == hash(Preimage(hash, m2, h2))
    ensures (m1 == m2 && (h1 == h2 || (|m1| == 1 && HeightTag(h1) == HeightTag(h2))))
         || (x in P && y in P && x != y && hash(x) == hash(y))
    decreases h1
  {
    hide NodesIn, Preimage, Half, Agree, HeightTag;
    x, y := Preimage(hash, m1, h1), Preimage(hash, m2, h2);
    OwnPreimage(hash, P, m1, h1);
    OwnPreimage(hash, P, m2, h2);
    if x != y {
      return;
    }
    if |m1| == 1 {
      LeafDecides(hash, m1, h1, m2, h2);
    } else {
      LeafOrInterior(hash, m1, h1);
      LeafOrInterior(hash, m2, h2);
      x, y := BindingSide(hash, P, m1, h1, m2, h2, false);
      if x == y {
        x, y := BindingSide(hash, P, m1, h1, m2, h2, true);
        HalvesJoin(m1, BITS - h1);
        HalvesJoin(m2, BITS - h2);
      }
    }
  }

  /** The inputs of a leaf's digest give its entry and its height's tag. */
  lemma LeafDecides(hash: Hash, m1: Map, h1: nat, m2: Map, h2: nat)
    requires |m1| == 1 && |m2| > 0 && Placed(m1, h1) && Placed(m2, h2)
    requires Preimage(hash, m1, h1) == Preimage(hash, m2, h2)
    ensures m1 == m2 && HeightTag(h1) == HeightTag(h2)
  {
    hide Agree, Preimage, HeightTag;
    LeafOrInterior(hash, m1, h1);
    LeafOrInterior(hash, m2, h2);
    var p := Preimage(hash, m1, h1);
    assert p[0] == TheKey(m1) && p[1] == m1[TheKey(m1)] && p[2] == [HeightTag(h1)];
    assert p[0] == TheKey(m2) && p[1] == m2[TheKey(m2)] && p[2] == [HeightTag(h2)];
    OneEntry(m1, TheKey(m1));
    OneEntry(m2, TheKey(m2));
  }

  lemma SideOfPreimage(hash: Hash, m: Map, h: nat, right: bool)
    requires |m| > 1 && 0 < h <= BITS
    ensures |Preimage(hash, m, h)| == 2
    ensures Preimage(hash, m, h)[if right then 1 else 0] == Side(hash, Half(m, BITS - h, right), h - 1)
  {
  }

  lemma NodesInHalf(hash: Hash, U: iset<seq<seq<Byte>>>, m: Map, h: nat, right: bool)
    requires |m| > 1 && 0 < h <= BITS && NodesIn(hash, U, m, h)
    ensures NodesIn(hash, U, Half(m, BITS - h, right), h - 1)
  {
  }

  lemma BindingSide(hash: Hash, P: iset<seq<seq<Byte>>>, m1: Map, h1: nat, m2: Map, h2: nat, right: bool)
    returns (x: seq<seq<Byte>>, y: seq<seq<Byte>>)
    requires |m1| > 1 && |m2| > 1 && 0 < h1 <= BITS && 0 < h2 <= BITS && Placed(m1, h1) && Placed(m2, h2)
    requires NodesIn(hash, P, m1, h1) && NodesIn(hash, P, m2, h2)
    requires Preimage(hash, m1, h1) == Preimage(hash, m2, h2)
    ensures x == y ==>
      Half(m1, BITS - h1, right) == Half(m2, BITS - h2, right) && (Half(m1, BITS - h1, right) != map[] ==> h1 == h2)
    ensures x != y ==> x in P && y in P && hash(x) == hash(y)
    decreases h1, 0
  {
    hide Placed, Half;
    var s1, s2 := Half(m1, BITS - h1, right), Half(m2, BITS - h2, right);
    SideOfPreimage(hash, m1, h1, right);
    SideOfPreimage(hash, m2, h2, right);
    PlacedHalf(m1, h1, right);
    PlacedHalf(m2, h2, right);
    NodesInHalf(hash, P, m1, h1, right);
    NodesInHalf(hash, P, m2, h2, right);
    hide NodesIn, Preimage;
    x, y := [], [];
    if |s1| > 0 && |s2| > 0 {
      x, y := Binding(hash, P, s1, h1 - 1, s2, h2 - 1);
      if s1 == s2 && (h1 == h2 || (|s1| == 1 && HeightTag(h1 - 1) == HeightTag(h2 - 1))) {
        x, y := [], [];
      }
    } else {
      assert |s1| == |s2| == 0;
    }
  }

  /** On a collision-free universe a digest names one map, at one height but for a leaf at the top or the bottom. */
  lemma Unique(hash: Hash, U: iset<seq<seq<Byte>>>, m1: Map, h1: nat, m2: Map, h2: nat)
    requires |m1| > 0 && |m2| > 0 && Placed(m1, h1) && Placed(m2, h2) && CollisionFree(hash, U)
    requires NodesIn(hash, U, m1, h1) && NodesIn(hash, U, m2, h2)
    requires hash(Preimage(hash, m1, h1)) == hash(Preimage(hash, m2, h2))
    ensures m1 == m2 && (h1 == h2 || (|m1| == 1 && HeightTag(h1) == HeightTag(h2)))
  {
    var x, y := Binding(hash, U, m1, h1, m2, h2);
  }

  // ---------------------------------------------------------------- batches

  function Parent(j: nat): nat
    requires j > 0
  {
    (j - 1) / 2
  }

  /** Slot j is strictly below slot i. */
  predicate Below(i: nat, j: nat)
    decreases j, i
  {
    j > i && (Parent(j) == i || Below(i, Parent(j)))
  }

  lemma {:induction false} BelowChildren(i: nat, j: nat)
    ensures Below(2 * i + 1, j) ==> Below(i, j) && !Below(2 * i + 2, j) && j != 2 * i + 2
    ensures Below(2 * i + 2, j) ==> Below(i, j) && j != 2 * i + 1
    decreases j
  {
    if j > i && j > 0 {
      BelowChildren(i, Parent(j));
      assert Parent(2 * i + 1) == i && Parent(2 * i + 2) == i;
    }
  }

  /** Nothing below slot i. */
  ghost predicate Clear(b: Batch, i: nat)
    decreases 31 - i, b
  {
    i < 15 ==> b[2 * i + 1] == Nil && b[2 * i + 2] == Nil && Clear(b, 2 * i + 1) && Clear(b, 2 * i + 2)
  }

  /** The slots below slot i hold the tree of m at height h, down to the end of the batch. */
  ghost predicate SubOk(hash: Hash, b: Batch, i: nat, m: Map, h: nat)
    requires h <= BITS
    decreases 31 - i, hash
  {
    i < 15 ==>
      if |m| == 0 then Clear(b, i)
      else if |m| == 1 then
        b[2 * i + 1] == Data(TheKey(m)) && b[2 * i + 2] == Data(m[TheKey(m)]) && Clear(b, 2 * i + 1)
          && Clear(b, 2 * i + 2)
      else
        && h > 0
        && b[2 * i + 1] == NodeOf(hash, Half(m, BITS - h, false), h - 1)
        && b[2 * i + 2] == NodeOf(hash, Half(m, BITS - h, true), h - 1)
        && SubOk(hash, b, 2 * i + 1, Half(m, BITS - h, false), h - 1)
        && SubOk(hash, b, 2 * i + 2, Half(m, BITS - h, true), h - 1)
  }

  /** Nothing strictly below slot i differs. */
  ghost predicate SameBelow(b: Batch, b': Batch, i: nat) {
    forall j :: 0 <= j < 31 && Below(i, j) ==> b'[j] == b[j]
  }

  lemma SameBelowChildren(b: Batch, b': Batch, i: nat)
    requires SameBelow(b, b', i) && i < 15
    ensures b'[2 * i + 1] == b[2 * i + 1] && b'[2 * i + 2] == b[2 * i + 2]
    ensures SameBelow(b, b', 2 * i + 1) && SameBelow(b, b', 2 * i + 2)
  {
    assert Below(i, 2 * i + 1) && Below(i, 2 * i + 2);
    forall j | 0 <= j < 31 && (Below(2 * i + 1, j) || Below(2 * i + 2, j)) ensures b'[j] == b[j] {
      BelowChildren(i, j);
    }
  }

  lemma {:induction false} ClearFrame(b: Batch, b': Batch, i: nat)
    requires Clear(b, i) && SameBelow(b, b', i)
    ensures Clear(b', i)
    decreases 31 - i
  {
    hide SameBelow;
    if i < 15 {
      SameBelowChildren(b, b', i);
      ClearFrame(b, b', 2 * i + 1);
      ClearFrame(b, b', 2 * i + 2);
    }
  }

  lemma {:induction false} SubFrame(hash: Hash, b: Batch, b': Batch, i: nat, m: Map, h: nat)
    requires h <= BITS && SubOk(hash, b, i, m, h) && SameBelow(b, b', i)
    ensures SubOk(hash, b', i, m, h)
    decreases 31 - i
  {
    hide SameBelow, NodeOf, Half;
    if i < 15 {
      SameBelowChildren(b, b', i);
      if |m| == 0 {
        ClearFrame(b, b', i);
      } else if |m| == 1 {
        ClearFrame(b, b', 2 * i + 1);
        ClearFrame(b, b', 2 * i + 2);
      } else {
        SubFrame(hash, b, b', 2 * i + 1, Half(m, BITS - h, false), h - 1);
        SubFrame(hash, b, b', 2 * i + 2, Half(m, BITS - h, true), h - 1);
      }
    }
  }

  /** A batch of the tree of a non-empty map. */
  ghost predicate BatchOk(hash: Hash, b: Batch, m: Map, h: nat)
    requires h <= BITS
  {
    |m| > 0 && b[0] == Mark(|m| == 1) && SubOk(hash, b, 0, m, h)
  }

  /** The batch of a leaf does not depend on the height. */
  lemma LeafBatch(hash: Hash, b: Batch, m: Map, h: nat, h': nat)
    requires h <= BITS && h' <= BITS && BatchOk(hash, b, m, h) && (h == h' || |m| == 1)
    ensures BatchOk(hash, b, m, h')
  {
  }

  // ---------------------------------------------------------------- writes

  function ApplyOne(m: Map, w: KV): Map {
    if w.v.Some? then m[w.k := w.v.value] else m - {w.k}
  }

  function Apply(m: Map, kv: seq<KV>): Map
    decreases |kv|
  {
    if kv == [] then m else Apply(ApplyOne(m, kv[0]), kv[1..])
  }

  /** m' is m with this value under this key, or without the key. */
  predicate Wrote(m: Map, m': Map, k: Key, v: Option<Value>) {
    m' == if v.Some? then m[k := v.value] else m - {k}
  }

  lemma OneWritten(m: Map, k: Key, v: Option<Value>)
    ensures Wrote(m, ApplyOne(m, KV(k, v)), k, v)
  {
  }

  /** The writes on one side. */
  function Going(kv: seq<KV>, d: nat, right: bool): (r: seq<KV>)
    requires d < BITS
    ensures |r| <= |kv|
  {
    if kv == [] then [] else (if BitIsSet(kv[0].k, d) == right then [kv[0]] else []) + Going(kv[1..], d, right)
  }

  lemma HalfOne(m: Map, w: KV, d: nat, right: bool)
    requires d < BITS
    ensures Half(ApplyOne(m, w), d, right) ==
            if BitIsSet(w.k, d) == right then ApplyOne(Half(m, d, right), w) else Half(m, d, right)
  {
    hide BitIsSet;
  }

  lemma {:induction false} ApplyHalf(m: Map, kv: seq<KV>, d: nat, right: bool)
    requires d < BITS
    ensures Half(Apply(m, kv), d, right) == Apply(Half(m, d, right), Going(kv, d, right))
    decreases |kv|
  {
    hide Half, ApplyOne, BitIsSet;
    if kv != [] {
      HalfOne(m, kv[0], d, right);
      ApplyHalf(ApplyOne(m, kv[0]), kv[1..], d, right);
      var going := Going(kv, d, right);
      if BitIsSet(kv[0].k, d) == right {
        assert going[0] == kv[0] && going[1..] == Going(kv[1..], d, right);
      } else {
        assert going == Going(kv[1..], d, right);
      }
    }
  }

  /** Every tree on the way down a map is in U, and so is its own tree at every height: what an update that ends in m
      may build. */
  ghost predicate Covers(hash: Hash, U: iset<seq<seq<Byte>>>, m: Map, h: nat)
    requires h <= BITS
    decreases h, hash
  {
    && NodesIn(hash, U, m, h)
    && (h > 0 ==> Covers(hash, U, Half(m, BITS - h, false), h - 1) && Covers(hash, U, Half(m, BITS - h, true), h - 1))
  }
}
