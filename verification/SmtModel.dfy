/** What a sparse Merkle tree stands for.

    A tree is described by the finite map it holds: `Root` is the digest of the one
    canonical tree of that map.  Below a prefix of `d` key bytes the canonical tree is
    empty for no key, a leaf for one key, and a 256-way node for two or more.

    The hash is an arbitrary function to 32-byte digests.  Nothing is assumed of it
    except, where stated, that it is free of collisions on a set of inputs.
 */
module SmtModel {
  import opened Words
  import opened SmtNodes

  type Map = map<Key, Value>
  type Hash = seq<Byte> -> Digest
  type Store = map<Digest, seq<Byte>>

  /** Pending writes: None deletes. */
  type Writes = map<Key, Option<Value>>

  ghost predicate Agree(keys: set<Key>, d: nat) {
    d <= KEY_SIZE && forall k1, k2 :: k1 in keys && k2 in keys ==> k1[..d] == k2[..d]
  }

  /** The entries whose key continues with byte c at depth d. */
  function Sub<V>(m: map<Key, V>, d: nat, c: Byte): map<Key, V>
    requires d < KEY_SIZE
  {
    map k | k in m && k[d] == c :: m[k]
  }

  ghost function TheKey(m: Map): (k: Key)
    requires |m| > 0
    ensures k in m
  {
    var k :| k in m.Keys;
    k
  }

  // ---------------------------------------------------------------- the canonical tree

  ghost function Root(h: Hash, m: Map, d: nat): Digest
    requires d <= KEY_SIZE
    decreases KEY_SIZE - d, 2
  {
    if |m| == 0 then EMPTY else h(NodeData(h, m, d))
  }

  ghost function NodeData(h: Hash, m: Map, d: nat): seq<Byte>
    requires d <= KEY_SIZE && |m| > 0
    decreases KEY_SIZE - d, 1
  {
    if IsLeaf(m, d) then LeafData(TheKey(m), m[TheKey(m)]) else InternalData(ChildRoots(h, m, d))
  }

  ghost predicate IsLeaf(m: Map, d: nat) {
    |m| == 1 || d >= KEY_SIZE
  }

  ghost function ChildRoots(h: Hash, m: Map, d: nat): Children
    requires d < KEY_SIZE
    decreases KEY_SIZE - d, 0
  {
    seq(ARITY, c requires 0 <= c < ARITY => Root(h, Sub(m, d, c), d + 1))
  }

  /** Every node of the canonical tree has its bytes in P. */
  ghost predicate NodesIn(h: Hash, P: iset<seq<Byte>>, m: Map, d: nat)
    requires d <= KEY_SIZE
    decreases KEY_SIZE - d
  {
    |m| > 0 ==>
      && NodeData(h, m, d) in P
      && (!IsLeaf(m, d) ==> forall c: Byte :: NodesIn(h, P, Sub(m, d, c), d + 1))
  }

  /** The byte strings a store can return under their own digest. */
  ghost function Held(h: Hash, s: Store): iset<seq<Byte>> {
    iset x: seq<Byte> | h(x) in s && s[h(x)] == x
  }

  /** The store holds the whole canonical tree of m. */
  ghost predicate Stored(h: Hash, s: Store, m: Map, d: nat)
    requires d <= KEY_SIZE
  {
    NodesIn(h, Held(h, s), m, d)
  }

  ghost predicate CollisionFree(h: Hash, U: iset<seq<Byte>>) {
    && (forall x, y :: x in U && y in U && h(x) == h(y) ==> x == y)
    && (forall x :: x in U ==> h(x) != EMPTY)
  }

  // ---------------------------------------------------------------- maps and sub-maps

  lemma OneEntry<V>(m: map<Key, V>, k: Key)
    requires |m| == 1 && k in m
    ensures m == map[k := m[k]]
  {
    assert m.Keys == {k} by {
      assert |m.Keys - {k}| == 0;
    }
  }

  lemma AgreeSub(keys: set<Key>, ks: set<Key>, d: nat, c: Byte)
    requires d < KEY_SIZE && Agree(keys, d)
    requires ks <= keys && forall k :: k in ks ==> k[d] == c
    ensures Agree(ks, d + 1)
  {
    forall k1, k2 | k1 in ks && k2 in ks ensures k1[..d + 1] == k2[..d + 1] {
      assert k1[..d + 1] == k1[..d] + [c] && k2[..d + 1] == k2[..d] + [c];
    }
  }

  /** Keys that agree on all 32 bytes are one key. */
  lemma AtMostOneAtBottom<V>(m: map<Key, V>)
    requires Agree(m.Keys, KEY_SIZE)
    ensures |m| <= 1
  {
    if |m| > 0 {
      var k :| k in m.Keys;
      forall k' | k' in m.Keys ensures k' == k {
        assert k'[..KEY_SIZE] == k' && k[..KEY_SIZE] == k;
      }
      assert m.Keys == {k};
    }
  }

  lemma SubOfOne(m: Map, d: nat, c: Byte)
    requires |m| == 1 && d < KEY_SIZE
    ensures Sub(m, d, c) == (if TheKey(m)[d] == c then m else map[])
  {
    OneEntry(m, TheKey(m));
  }

  /** Sub-trees of a stored tree are stored, in every shape of the tree. */
  lemma NodesInSub(h: Hash, P: iset<seq<Byte>>, m: Map, d: nat, c: Byte)
    requires d < KEY_SIZE && NodesIn(h, P, m, d)
    ensures NodesIn(h, P, Sub(m, d, c), d + 1)
  {
    if |m| == 0 {
      assert Sub(m, d, c) == map[];
    } else if |m| == 1 {
      SubOfOne(m, d, c);
    }
  }

  lemma {:induction false} NodesInMonotone(h: Hash, P: iset<seq<Byte>>, Q: iset<seq<Byte>>, m: Map, d: nat)
    requires d <= KEY_SIZE && P <= Q && NodesIn(h, P, m, d)
    ensures NodesIn(h, Q, m, d)
    decreases KEY_SIZE - d
  {
    if |m| > 0 && !IsLeaf(m, d) {
      forall c: Byte ensures NodesIn(h, Q, Sub(m, d, c), d + 1) {
        NodesInMonotone(h, P, Q, Sub(m, d, c), d + 1);
      }
    }
  }

  // ---------------------------------------------------------------- writes

  /** The map m overridden by the writes w. */
  function Override(m: Map, w: Writes): Map {
    map k | k in m.Keys + w.Keys && (k in w ==> w[k].Some?) :: if k in w then w[k].value else m[k]
  }

  lemma OverrideSub(m: Map, w: Writes, d: nat, c: Byte)
    requires d < KEY_SIZE
    ensures Sub(Override(m, w), d, c) == Override(Sub(m, d, c), Sub(w, d, c))
  {
  }

  /** What a batch of writes makes of one key. */
  lemma OverrideLaw(m: Map, w: Writes, k: Key)
    ensures k in Override(m, w) <==> if k in w then w[k].Some? else k in m
    ensures k in Override(m, w) ==> Override(m, w)[k] == if k in w then w[k].value else m[k]
  {
  }

  lemma OverrideEntry(m: Map, k: Key, v: Option<Value>)
    ensures Override(m, map[k := v]) == if v.Some? then m[k := v.value] else m - {k}
  {
  }

  lemma OverrideAlgebra(m: Map, w: Writes, w': Writes)
    ensures Override(m, map[]) == m
    ensures Override(Override(m, w), w') == Override(m, w + w')
  {
  }

  lemma OverrideOne(m: Map, w: Writes, k: Key, v: Option<Value>)
    ensures Override(Override(m, w), map[k := v]) == Override(m, w[k := v])
  {
    OverrideAlgebra(m, w, map[k := v]);
    assert w[k := v] == w + map[k := v];
  }

  // ---------------------------------------------------------------- collapse

  lemma EmptyRoot(h: Hash, U: iset<seq<Byte>>, m: Map, d: nat)
    requires d <= KEY_SIZE && CollisionFree(h, U) && NodesIn(h, U, m, d)
    ensures Root(h, m, d) == EMPTY <==> m == map[]
  {
  }

  lemma KeyHasChild(h: Hash, U: iset<seq<Byte>>, m: Map, d: nat, k: Key)
    requires d < KEY_SIZE && CollisionFree(h, U) && NodesIn(h, U, m, d) && k in m
    ensures ChildRoots(h, m, d)[k[d]] != EMPTY
  {
    var s := Sub(m, d, k[d]);
    assert k in s;
    NodesInSub(h, U, m, d, k[d]);
    EmptyRoot(h, U, s, d + 1);
  }

  /** No non-empty child: the map is empty. */
  lemma CollapseNone(h: Hash, U: iset<seq<Byte>>, m: Map, d: nat)
    requires d < KEY_SIZE && CollisionFree(h, U) && NodesIn(h, U, m, d)
    requires forall c :: 0 <= c < ARITY ==> ChildRoots(h, m, d)[c] == EMPTY
    ensures m == map[]
  {
    forall k ensures k !in m {
      if k in m { KeyHasChild(h, U, m, d, k); }
    }
  }

  /** Exactly one non-empty child: it holds the whole map. */
  lemma CollapseOne(h: Hash, U: iset<seq<Byte>>, m: Map, d: nat, c: Byte)
    requires d < KEY_SIZE && CollisionFree(h, U) && NodesIn(h, U, m, d)
    requires forall c' :: 0 <= c' < ARITY && c' != c ==> ChildRoots(h, m, d)[c'] == EMPTY
    ensures Sub(m, d, c) == m
  {
    forall k | k in m ensures k[d] == c {
      KeyHasChild(h, U, m, d, k);
    }
  }

  /** Two non-empty children: at least two keys. */
  lemma CollapseTwo(h: Hash, m: Map, d: nat, c1: Byte, c2: Byte)
    requires d < KEY_SIZE && c1 != c2
    requires ChildRoots(h, m, d)[c1] != EMPTY && ChildRoots(h, m, d)[c2] != EMPTY
    ensures |m| >= 2
  {
    assert ChildRoots(h, m, d)[c1] == Root(h, Sub(m, d, c1), d + 1);
    assert ChildRoots(h, m, d)[c2] == Root(h, Sub(m, d, c2), d + 1);
    var k1, k2 := TheKey(Sub(m, d, c1)), TheKey(Sub(m, d, c2));
    assert {k1, k2} <= m.Keys;
    assert |m.Keys - {k1, k2}| == |m.Keys| - 2;
  }

  // ---------------------------------------------------------------- binding

  /** Equal roots stand for equal maps, or the two trees exhibit a hash collision among
      their own nodes: two different node strings with one digest, or one whose digest is EMPTY. */
  lemma {:induction false} Binding(h: Hash, P: iset<seq<Byte>>, m1: Map, m2: Map, d: nat)
    returns (x: seq<Byte>, y: seq<Byte>)
    requires d <= KEY_SIZE && Agree(m1.Keys, d) && Agree(m2.Keys, d)
    requires NodesIn(h, P, m1, d) && NodesIn(h, P, m2, d)
    requires Root(h, m1, d) == Root(h, m2, d)
    ensures m1 == m2 || (x in P && h(x) == EMPTY) || (x in P && y in P && x != y && h(x) == h(y))
    decreases KEY_SIZE - d
  {
    x, y := [], [];
    if |m1| == 0 || |m2| == 0 {
      if |m1| > 0 { x := NodeData(h, m1, d); }
      if |m2| > 0 { x := NodeData(h, m2, d); }
      return;
    }
    x, y := NodeData(h, m1, d), NodeData(h, m2, d);
    if x == y {
      SameNode(h, m1, m2, d);
      if m1 != m2 {
        var c := DifferentChild(m1, m2, d);
        assert ChildRoots(h, m1, d)[c] == ChildRoots(h, m2, d)[c];
        AgreeSub(m1.Keys, Sub(m1, d, c).Keys, d, c);
        AgreeSub(m2.Keys, Sub(m2, d, c).Keys, d, c);
        NodesInSub(h, P, m1, d, c);
        NodesInSub(h, P, m2, d, c);
        x, y := Binding(h, P, Sub(m1, d, c), Sub(m2, d, c), d + 1);
      }
    }
  }

  /** Equal node bytes: the same leaf, or the same table of children. */
  lemma SameNode(h: Hash, m1: Map, m2: Map, d: nat)
    requires d <= KEY_SIZE && Agree(m1.Keys, d) && Agree(m2.Keys, d) && |m1| > 0 && |m2| > 0
    requires NodeData(h, m1, d) == NodeData(h, m2, d)
    ensures m1 == m2 || (d < KEY_SIZE && ChildRoots(h, m1, d) == ChildRoots(h, m2, d))
  {
    if d == KEY_SIZE {
      AtMostOneAtBottom(m1);
      AtMostOneAtBottom(m2);
    }
    if IsLeaf(m1, d) {
      assert NodeData(h, m1, d)[0] == NODE_LEAF && IsLeaf(m2, d);
      var k1, k2 := TheKey(m1), TheKey(m2);
      OneEntry(m1, k1);
      OneEntry(m2, k2);
      LeafDataInjective(k1, m1[k1], k2, m2[k2]);
    } else {
      assert NodeData(h, m1, d)[0] == NODE_INTERNAL && !IsLeaf(m2, d);
      InternalDataInjective(ChildRoots(h, m1, d), ChildRoots(h, m2, d));
    }
  }

  lemma DifferentChild(m1: Map, m2: Map, d: nat) returns (c: Byte)
    requires d < KEY_SIZE && m1 != m2
    ensures Sub(m1, d, c) != Sub(m2, d, c)
  {
    var k :| (k in m1 || k in m2) && (k in m1 && k in m2 ==> m1[k] != m2[k]);
    c := k[d];
    assert k in Sub(m1, d, c) <==> k in m1;
    assert k in Sub(m2, d, c) <==> k in m2;
  }

  // ---------------------------------------------------------------- the bytes under a root

  /** The topmost node of the tree of m below depth d: the one entry as a leaf, or a node whose child c is the root of
      the entries that go on with byte c. */
  ghost predicate TopBytes(h: Hash, m: Map, d: nat, bytes: seq<Byte>)
    requires d <= 32
  {
    if |m| == 1 then forall k :: k in m ==> LeafBytes(bytes, k, m[k])
    else d < 32 && exists cs: Children ::
      NodeBytes(bytes, cs) && forall c: Byte :: cs[c] == Root(h, map k | k in m && k[d] == c :: m[k], d + 1)
  }

  /** The root of the empty map is 32 zeros; any other is the hash of the topmost node. */
  lemma RootLaw(h: Hash, m: Map, d: nat)
    requires d <= 32 && Agree(m.Keys, d)
    ensures m == map[] ==> Zeros(Root(h, m, d))
    ensures m != map[] ==> Root(h, m, d) == h(NodeData(h, m, d)) && TopBytes(h, m, d, NodeData(h, m, d))
  {
    hide NodeBytes, LeafBytes, LeafData, InternalData;
    ZerosEmpty(EMPTY);
    if |m| == 1 {
      LeafLaw(NodeData(h, m, d), TheKey(m), m[TheKey(m)]);
      OneEntry(m, TheKey(m));
    } else if |m| > 1 {
      if d == 32 { AtMostOneAtBottom(m); }
      var cs := ChildRoots(h, m, d);
      NodeSound(cs);
      assert NodeBytes(NodeData(h, m, d), cs);
      forall c: Byte ensures cs[c] == Root(h, map k | k in m && k[d] == c :: m[k], d + 1) {
        assert Sub(m, d, c) == map k | k in m && k[d] == c :: m[k];
      }
    }
  }
}
