/** The binary trie of smt-v2: updating one key, reading, and committing.

    Batches are arrays that the recursion changes in place, also while they are stored.
 */
module BitTree {
  import opened Words
  import opened BitKeys
  import opened BitTreeModel
  import opened BitDatabase
  import opened BitWrites
  import opened BitBatches
  import opened BitProofs

  /** What an update ends in is in the universe, and so is what it ends in on either side. */
  lemma CoversNode(hash: Hash, U: iset<seq<seq<Byte>>>, m: Map, h: nat)
    requires h <= BITS && Covers(hash, U, m, h)
    ensures NodesIn(hash, U, m, h)
    ensures h > 0 ==>
      Covers(hash, U, Half(m, BITS - h, false), h - 1) && Covers(hash, U, Half(m, BITS - h, true), h - 1)
  {
  }

  /** What is no longer in use once a node at this height is done: its batch, if the node is the root of it. */
  ghost function Done(busy: set<array<Slot>>, batch: array<Slot>, height: nat): set<array<Slot>> {
    if height % 4 == 0 then busy - {batch} else busy
  }

  /** The arrays in use that an update at this height leaves alone. */
  ghost function Others(busy: set<array<Slot>>, batch0: array?<Slot>, height: nat): set<array<Slot>> {
    if height % 4 == 0 || batch0 == null then busy else busy - {batch0}
  }

  lemma LeafHas(m: Map, key: Key)
    requires |m| == 1
    ensures (key in m <==> TheKey(m) == key) && (key in m ==> m[key] == m[TheKey(m)])
  {
    OneEntry(m, TheKey(m));
  }

  lemma SideHas(m: Map, d: nat, key: Key)
    requires d < BITS
    ensures var half := Half(m, d, BitIsSet(key, d)); (key in m <==> key in half) && (key in m ==> m[key] == half[key])
  {
  }

  /** The source's error "the trie node .. is unavailable", or a result. */
  datatype Outcome<+T> = Unavailable | Known(value: T)

  /** The batches on the way of a key are among the keys. */
  ghost predicate OnWayIn(hash: Hash, keys: set<Digest>, m: Map, key: Key, h: nat)
    requires h <= BITS
    decreases h, hash
  {
    |m| > 0 ==>
      && (h % 4 == 0 ==> DigestOf(hash, m, h) in keys)
      && (|m| >= 2 && h > 0 ==> OnWayIn(hash, keys, Half(m, BITS - h, BitIsSet(key, BITS - h)), key, h - 1))
  }

  lemma WayDown(hash: Hash, keys: set<Digest>, m: Map, key: Key, h: nat)
    requires h <= BITS
    ensures |m| == 0 ==> OnWayIn(hash, keys, m, key, h)
    ensures |m| > 0 && h % 4 == 0 && DigestOf(hash, m, h) !in keys ==> !OnWayIn(hash, keys, m, key, h)
    ensures |m| == 1 && (h % 4 == 0 ==> DigestOf(hash, m, h) in keys) ==> OnWayIn(hash, keys, m, key, h)
    ensures |m| >= 2 && h > 0 && (h % 4 == 0 ==> DigestOf(hash, m, h) in keys) ==>
              (OnWayIn(hash, keys, m, key, h) <==>
               OnWayIn(hash, keys, Half(m, BITS - h, BitIsSet(key, BITS - h)), key, h - 1))
  {
    hide DigestOf, Half;
  }

  lemma {:induction false} HeldOnWay(hash: Hash, un: Nodes, saved: set<Digest>, m: Map, key: Key, h: nat)
    requires h <= BITS && Held(hash, un, saved, {}, m, h, {})
    ensures OnWayIn(hash, un.Keys + saved, m, key, h)
    decreases h
  {
    hide DigestOf, Half;
    if |m| > 0 {
      assert h % 4 == 0 ==> Needs(hash, m, h, DigestOf(hash, m, h));
      if |m| >= 2 && h > 0 {
        HeldHalves(hash, un, saved, {}, m, h, {});
        HeldOnWay(hash, un, saved, Half(m, BITS - h, BitIsSet(key, BITS - h)), key, h - 1);
      }
    }
  }

  /** A store to which the batches of some of the nodes were added. */
  ghost function SavedWith(saved: Store, un: Nodes, keys: set<Digest>): Store
    requires keys <= un.Keys && forall d :: d in un ==> un[d].Length == 31
    reads un.Values
  {
    saved + map d | d in keys :: un[d][..]
  }

  lemma SavedNext(saved: Store, un: Nodes, rest: set<Digest>, d: Digest)
    requires d in rest && rest <= un.Keys && forall x :: x in un ==> un[x].Length == 31
    ensures SavedWith(saved, un, un.Keys - (rest - {d})) == SavedWith(saved, un, un.Keys - rest)[d := un[d][..]]
  {
    assert un.Keys - (rest - {d}) == un.Keys - rest + {d};
  }

  lemma SavedFirst(saved: Store, un: Nodes)
    requires forall d :: d in un ==> un[d].Length == 31
    ensures SavedWith(saved, un, un.Keys - un.Keys) == saved
  {
    assert un.Keys - un.Keys == {};
  }

  // ---------------------------------------------------------------- the trie

  class Trie {
    const hash: Hash
    /** `db.updatedNodes`, and `db.Store`, from which a batch is always a new copy. */
    var updatedNodes: Nodes
    var committed: Store
    var Root: Option<Digest>
    /** The inputs on which the hash is assumed free of collisions, and without the digest of zeros. */
    ghost const universe: iset<seq<seq<Byte>>>
    /** The map that the trie holds, and the arrays that it works on. */
    ghost var contents: Map
    ghost var repr: set<array<Slot>>

    constructor (hash: Hash, ghost universe: iset<seq<seq<Byte>>>)
      requires CollisionFree(hash, universe)
      ensures Valid() && Intact() && Root == None && contents == map[] && updatedNodes == map[] && committed == map[]
      ensures this.hash == hash && this.universe == universe && fresh(repr)
    {
      this.hash := hash;
      this.universe := universe;
      updatedNodes, committed, Root := map[], map[], None;
      contents, repr := map[], {};
    }

    /** All batches are right but for the arrays in use. */
    ghost predicate Fine(busy: set<array<Slot>>)
      reads this`updatedNodes, this`committed, this`repr, repr - busy
    {
      && CollisionFree(hash, universe) && SavedRight(hash, universe, committed) && busy <= repr
      && Right(hash, universe, updatedNodes, repr, busy)
    }

    ghost predicate Sound(m: Map, height: nat) {
      Placed(m, height) && NodesIn(hash, universe, m, height)
    }

    ghost predicate Has(m: Map, height: nat, missing: set<Digest>, busy: set<array<Slot>>)
      requires height <= BITS
      reads this`updatedNodes, this`committed
    {
      Held(hash, updatedNodes, committed.Keys, busy, m, height, missing)
    }

    /** The slots below slot i hold the tree of m. */
    ghost predicate InBatch(batch: array<Slot>, i: nat, m: Map, height: nat)
      reads batch
    {
      batch.Length == 31 && height <= BITS && SubOk(hash, batch[..], i, m, height)
    }

    /** A subtree as `update` finds it. */
    ghost predicate Ready(root: Ref, m: Map, height: nat, busy: set<array<Slot>>)
      reads this`updatedNodes, this`committed
    {
      Sound(m, height) && Names(hash, root, m, height) && Has(m, height, {}, busy)
    }

    /** A subtree as `update` leaves it: what it needs can be loaded but for what goes, and nothing else was touched. */
    ghost predicate After(was: Nodes, m: Map, height: nat, q: Key, gone: set<Digest>, busy: set<array<Slot>>)
      requires height <= BITS
      reads this`updatedNodes, this`committed
    {
      && Has(m, height, gone, busy) && Kept(hash, universe, was, updatedNodes, busy, q, height)
      && forall d :: d in gone ==> d !in updatedNodes
    }

    /** The place of a node: its slot, the batch that is being worked on, and the old root above it. */
    ghost predicate At(un: Nodes, root: Ref, m0: Map, height: nat, q: Key, batch: array<Slot>, iBatch: nat,
            busy: set<array<Slot>>)
    {
      && height <= BITS && LevelOk(iBatch, height) && batch.Length == 31 && batch in busy
      && Sound(m0, height) && Names(hash, root, m0, height) && Near(m0.Keys, q, height)
      && (height % 4 == 0 ==> Owned(un, batch, root))
    }

    /** What goes may go. */
    ghost predicate May(root: Ref, m0: Map, m: Map, height: nat, batch: array<Slot>, busy: set<array<Slot>>,
            gone: set<Digest>)
      requires height <= BITS
      reads this`updatedNodes, this`committed
    {
      && GoneOk(hash, root, m, height, gone) && Away(updatedNodes, root, gone)
      && (height % 4 == 0 ==> Spared(updatedNodes, committed.Keys, Done(busy, batch, height), root, m0, m, gone))
    }

    /** The trie has the root of its contents, and no batch of it is wrong. */
    ghost predicate Valid()
      reads this, repr
    {
      Fine({}) && Sound(contents, BITS) && Root == RootOf(hash, contents, BITS)
    }

    /** No batch of it is missing. */
    ghost predicate Intact()
      reads this
    {
      Has(contents, BITS, {}, {})
    }

    // -------------------------------------------------------------- the database

    /** `loadBatch`: the stored array itself, or a copy of the committed batch, or null when the node is unavailable. */
    method LoadBatch(root: Ref, ghost busy: set<array<Slot>>) returns (batch: array?<Slot>)
      requires Fine(busy)
      ensures batch == null <==> Named(root) !in updatedNodes && Named(root) !in committed
      ensures Named(root) in updatedNodes ==> batch == updatedNodes[Named(root)]
      ensures Named(root) !in updatedNodes && Named(root) in committed ==>
        fresh(batch) && batch.Length == 31 && batch[..] == committed[Named(root)]
    {
      if Named(root) in updatedNodes {
        return updatedNodes[Named(root)];
      }
      if Named(root) !in committed {
        return null;
      }
      var val := committed[Named(root)];
      batch := new Slot[31](i requires 0 <= i < 31 => val[i]);
      assert batch[..] == val;
    }

    /** `deleteOldNode` */
    method DeleteOldNode(root: Ref)
      modifies this`updatedNodes
      ensures updatedNodes == old(updatedNodes) - {Named(root)}
    {
      updatedNodes := updatedNodes - {Named(root)};
    }

    /** `storeNode` */
    method StoreNode(batch: array<Slot>, h: Ref, oldRoot: Ref)
      modifies this`updatedNodes
      ensures updatedNodes == Put(old(updatedNodes), h, oldRoot, batch)
    {
      if h != oldRoot {
        updatedNodes := updatedNodes[Named(h) := batch];
        DeleteOldNode(oldRoot);
      }
    }

    /** `batch[0] = []byte{..}` and `storeNode`. */
    method StoreBatch(batch: array<Slot>, h: Digest, oldRoot: Ref, height: nat, shortcut: bool, ghost m0: Map,
            ghost m: Map, ghost q: Key, ghost gone: set<Digest>, ghost busy: set<array<Slot>>)
      requires Fine(busy) && At(updatedNodes, oldRoot, m0, height, q, batch, 0, busy)
        && May(oldRoot, m0, m, height, batch, busy, gone)
      requires Real(hash, universe, m, height) && height % 4 == 0 && Near(m.Keys, q, height)
      requires h == DigestOf(hash, m, height) && InBatch(batch, 0, m, height) && (shortcut <==> |m| == 1)
      requires |m| >= 2 ==> height > 0
      requires |m| >= 2 ==> Has(Half(m, BITS - height, false), height - 1, gone, busy)
      requires |m| >= 2 ==> Has(Half(m, BITS - height, true), height - 1, gone, busy)
      modifies this`updatedNodes, batch
      ensures Fine(busy - {batch}) && After(old(updatedNodes), m, height, q, gone, busy - {batch})
      ensures InBatch(batch, 0, m, height)
      ensures batch[1..] == old(batch[1..])
    {
      hide NodesIn, DigestOf, SubOk, CollisionFree, Agree, Half, Right, SavedRight, GoneOk, Spared, Away, Held, Kept,
        Near, Names;
      ghost var b, was := batch[..], updatedNodes;
      batch[0] := Mark(shortcut);
      assert SameBelow(b, batch[..], 0);
      SubFrame(hash, b, batch[..], 0, m, height);
      ghost var node := Flagged(h, shortcut);
      FineShape(busy);
      PutRight(hash, universe, was, repr, busy, batch, node, oldRoot, m, height);
      PutKept(hash, universe, was, busy, batch, node, oldRoot, m0, m, q, height);
      PutHeld(hash, universe, was, committed.Keys, busy, batch, node, oldRoot, m0, m, height, gone);
      StoreNode(batch, Flagged(h, shortcut), oldRoot);
    }

    lemma FineRepr(busy: set<array<Slot>>)
      requires Fine(busy)
      ensures busy <= repr
    {
    }

    lemma FineCore(busy: set<array<Slot>>)
      requires Fine(busy)
      ensures busy <= repr && CollisionFree(hash, universe)
    {
    }

    lemma FineParts(busy: set<array<Slot>>)
      requires Fine(busy)
      ensures Right(hash, universe, updatedNodes, repr, busy) && busy <= repr
      ensures CollisionFree(hash, universe) && SavedRight(hash, universe, committed)
    {
    }

    lemma Lengths(busy: set<array<Slot>>)
      requires Fine(busy)
      ensures forall d :: d in updatedNodes ==> updatedNodes[d].Length == 31
    {
    }

    lemma FineShape(busy: set<array<Slot>>)
      requires Fine(busy)
      ensures ZERO !in updatedNodes && Shaped(updatedNodes, repr)
    {
    }

    /** `loadChildren`: the batch and slot of a node, its two children, and whether it is a shortcut; null when the
        batch of the node is unavailable. */
    method LoadChildren(root: Ref, height: nat, iBatch0: nat, batch0: array?<Slot>, ghost m: Map,
            ghost busy: set<array<Slot>>)
      returns (batch: array?<Slot>, iBatch: nat, lnode: Slot, rnode: Slot, isShortcut: bool)
      requires Fine(busy) && Sound(m, height) && Names(hash, root, m, height)
      requires height % 4 == 0 && |m| > 0 && DigestOf(hash, m, height) in updatedNodes ==>
                 updatedNodes[DigestOf(hash, m, height)] !in busy
      requires height % 4 != 0 ==>
                 batch0 != null && batch0.Length == 31 && LevelOk(iBatch0, height)
                   && InBatch(batch0, iBatch0, m, height)
      ensures batch == null <==>
                height % 4 == 0 && |m| > 0 && DigestOf(hash, m, height) !in updatedNodes.Keys + committed.Keys
      ensures batch != null ==>
                && batch.Length == 31 && LevelOk(iBatch, height) && InBatch(batch, iBatch, m, height)
                && lnode == batch[2 * iBatch + 1] && rnode == batch[2 * iBatch + 2]
                && (height % 4 == 0 || batch[iBatch] == NodeOf(hash, m, height) ==> (isShortcut <==> |m| == 1))
      ensures height % 4 != 0 ==> batch == batch0 && iBatch == iBatch0
      ensures height % 4 == 0 && batch != null ==>
                if |m| > 0 && DigestOf(hash, m, height) in updatedNodes
                then batch == updatedNodes[DigestOf(hash, m, height)]
                else fresh(batch)
    {
      hide NodesIn, Preimage, Agree, Half, CollisionFree, SubOk, Clear, Right, SavedRight;
      batch, iBatch, lnode, rnode, isShortcut := null, 0, Nil, Nil, false;
      if height % 4 == 0 {
        if root == Absent {
          batch := NewBatch(Mark(false));
          EmptyBatch(hash, batch[..], m, height);
        } else {
          batch := LoadBatch(root, busy);
          if batch == null {
            return;
          }
          LoadedRight(m, height, busy);
        }
        iBatch := 0;
        isShortcut := batch[0] == Mark(true);
      } else {
        batch, iBatch := batch0, iBatch0;
        isShortcut := batch[iBatch].Node? && batch[iBatch].shortcut;
      }
      lnode, rnode := batch[2 * iBatch + 1], batch[2 * iBatch + 2];
    }

    lemma LoadedRight(m: Map, height: nat, busy: set<array<Slot>>)
      requires Fine(busy) && Sound(m, height) && |m| > 0 && height % 4 == 0
      ensures var d := DigestOf(hash, m, height);
        && (d in committed ==> BatchOk(hash, committed[d], m, height))
        && (d in updatedNodes && updatedNodes[d] !in busy ==>
             updatedNodes[d].Length == 31 && BatchOk(hash, updatedNodes[d][..], m, height))
    {
      hide NodesIn, DigestOf, Agree, CollisionFree, BatchOk;
      assert Real(hash, universe, m, height);
    }

    // -------------------------------------------------------------- writing one node

    /** `leafHash`: the key and value go into the children of slot iBatch, which are clear. */
    method LeafHash(key: Key, value: Value, oldRoot: Ref, batch: array<Slot>, iBatch: nat, height: nat, ghost m0: Map,
            ghost q: Key, ghost gone: set<Digest>, ghost busy: set<array<Slot>>)
      returns (node: Slot)
      requires Fine(busy) && At(updatedNodes, oldRoot, m0, height, q, batch, iBatch, busy)
      requires May(oldRoot, m0, map[key := value], height, batch, busy, gone)
      requires Clear(batch[..], 2 * iBatch + 1) && Clear(batch[..], 2 * iBatch + 2)
      requires Sound(map[key := value], height) && Near({key}, q, height)
      modifies this`updatedNodes, batch
      ensures var m := map[key := value];
              && node == NodeOf(hash, m, height) && InBatch(batch, iBatch, m, height)
              && After(old(updatedNodes), m, height, q, gone, Done(busy, batch, height))
      ensures Fine(Done(busy, batch, height))
      ensures Outside(old(batch[..]), batch[..], iBatch)
    {
      hide NodesIn, SubOk, Half, CollisionFree, Right, SavedRight, Agree, Held, Kept, Near, GoneOk, Spared;
      ghost var m, b0 := map[key := value], batch[..];
      OneEntry(m, key);
      var h := hash([key, value, [HeightTag(height)]]);
      PutLeaf(hash, b0, iBatch, m, height);
      assert Below(iBatch, 2 * iBatch + 1) && Below(iBatch, 2 * iBatch + 2);
      batch[2 * iBatch + 2] := Data(value);
      batch[2 * iBatch + 1] := Data(key);
      assert batch[..] == b0[2 * iBatch + 1 := Data(key)][2 * iBatch + 2 := Data(value)];
      if height % 4 == 0 {
        assert m.Keys == {key};
        StoreBatch(batch, h, oldRoot, height, true, m0, m, q, gone, busy);
      } else {
        NothingStored(oldRoot, m0, m, height, q, batch, busy, gone);
      }
      node := Node(h, true);
    }

    /** Away from the root of a batch a leaf, or nothing, needs no batch. */
    lemma NothingStored(root: Ref, m0: Map, m: Map, height: nat, q: Key, batch: array<Slot>, busy: set<array<Slot>>,
            gone: set<Digest>)
      requires height <= BITS && Names(hash, root, m0, height) && height % 4 != 0 && |m| <= 1
      requires May(root, m0, m, height, batch, busy, gone)
      ensures After(updatedNodes, m, height, q, gone, busy)
    {
      HeldNothing(hash, updatedNodes, committed.Keys, busy, m, height, gone);
      KeptSame(hash, universe, updatedNodes, busy, q, height);
      hide NodesIn, Held, Kept, DigestOf, GoneOk, Spared;
    }

    /** The two halves of m are in place below slot iBatch, and can be loaded but for what goes. */
    ghost predicate HalvesHeld(batch: Batch, iBatch: nat, m: Map, height: nat, gone: set<Digest>,
            busy: set<array<Slot>>)
      requires 0 < height <= BITS
      reads this`updatedNodes, this`committed
    {
      && SubOk(hash, batch, 2 * iBatch + 1, Half(m, BITS - height, false), height - 1)
      && SubOk(hash, batch, 2 * iBatch + 2, Half(m, BITS - height, true), height - 1)
      && Sound(Half(m, BITS - height, false), height - 1) && Has(Half(m, BITS - height, false), height - 1, gone, busy)
      && Sound(Half(m, BITS - height, true), height - 1) && Has(Half(m, BITS - height, true), height - 1, gone, busy)
    }

    ghost predicate ChildrenAre(left: Slot, right: Slot, m: Map, height: nat)
      requires 0 < height <= BITS
    {
      left == NodeOf(hash, Half(m, BITS - height, false), height - 1)
        && right == NodeOf(hash, Half(m, BITS - height, true), height - 1)
    }

    /** `interiorHash` */
    method InteriorHash(left: Slot, right: Slot, oldRoot: Ref, batch: array<Slot>, iBatch: nat, height: nat,
            ghost m0: Map, ghost m: Map, ghost q: Key, ghost gone: set<Digest>, ghost busy: set<array<Slot>>)
      returns (node: Slot)
      requires 0 < height && Fine(busy) && At(updatedNodes, oldRoot, m0, height, q, batch, iBatch, busy)
      requires May(oldRoot, m0, m, height, batch, busy, gone)
      requires |m| >= 2 && Sound(m, height) && Near(m.Keys, q, height) && ChildrenAre(left, right, m, height)
      requires HalvesHeld(batch[..], iBatch, m, height, gone, busy)
      modifies this`updatedNodes, batch
      ensures node == NodeOf(hash, m, height) && InBatch(batch, iBatch, m, height)
      ensures After(old(updatedNodes), m, height, q, gone, Done(busy, batch, height)) && Fine(Done(busy, batch, height))
      ensures Outside(old(batch[..]), batch[..], iBatch)
    {
      hide NodesIn, SubOk, Half, CollisionFree, Right, SavedRight, Agree, Held, Kept, Near, GoneOk, Spared, Preimage,
        NodeOf;
      InteriorPreimage(hash, m, height);
      var h: Digest;
      if left == Nil {
        h := hash([DEFAULT_LEAF, right.digest]);
      } else if right == Nil {
        h := hash([left.digest, DEFAULT_LEAF]);
      } else {
        h := hash([left.digest, right.digest]);
      }
      assert h == hash([SideBytes(left), SideBytes(right)]);
      ghost var b0 := batch[..];
      PutInterior(hash, b0, iBatch, m, height);
      assert Below(iBatch, 2 * iBatch + 1) && Below(iBatch, 2 * iBatch + 2);
      batch[2 * iBatch + 2] := right;
      batch[2 * iBatch + 1] := left;
      assert batch[..] == b0[2 * iBatch + 1 := left][2 * iBatch + 2 := right];
      if height % 4 == 0 {
        StoreBatch(batch, h, oldRoot, height, false, m0, m, q, gone, busy);
      } else {
        InteriorKept(oldRoot, m0, m, height, q, batch, busy, gone);
      }
      node := Node(h, false);
      InteriorNode(m, height);
    }

    lemma InteriorNode(m: Map, height: nat)
      requires height <= BITS && |m| >= 2
      ensures NodeOf(hash, m, height) == Node(DigestOf(hash, m, height), false)
    {
    }

    lemma InteriorKept(root: Ref, m0: Map, m: Map, height: nat, q: Key, batch: array<Slot>, busy: set<array<Slot>>,
            gone: set<Digest>)
      requires 0 < height <= BITS && Names(hash, root, m0, height) && height % 4 != 0
      requires May(root, m0, m, height, batch, busy, gone)
      requires Has(Half(m, BITS - height, false), height - 1, gone, busy)
        && Has(Half(m, BITS - height, true), height - 1, gone, busy)
      ensures After(updatedNodes, m, height, q, gone, busy)
    {
      HeldWhole(hash, updatedNodes, committed.Keys, busy, m, height, gone);
      KeptSame(hash, universe, updatedNodes, busy, q, height);
      hide NodesIn, Held, Kept, DigestOf, GoneOk, Spared, Half;
    }

    /** `moveUpShortcut`: the only leaf of a subtree moves from a child to the node itself, and is hashed with its
        new height. */
    method MoveUpShortcut(shortcut: Slot, root: Ref, batch: array<Slot>, iBatch: nat, iShortcut: nat, height: nat,
            ghost m0: Map, ghost m: Map, ghost q: Key, ghost gone: set<Digest>, ghost busy: set<array<Slot>>)
      returns (update: Slot)
      requires 0 < height && Fine(busy) && At(updatedNodes, root, m0, height, q, batch, iBatch, busy)
      requires May(root, m0, m, height, batch, busy, gone)
      requires |m| == 1 && Sound(m, height) && Near(m.Keys, q, height)
      requires Sound(m, height - 1) && Has(m, height - 1, gone, busy) && shortcut == NodeOf(hash, m, height - 1)
      requires iShortcut == 2 * iBatch + 1 || iShortcut == 2 * iBatch + 2
      requires InBatch(batch, iShortcut, m, height - 1)
      requires Clear(batch[..], if iShortcut == 2 * iBatch + 1 then 2 * iBatch + 2 else 2 * iBatch + 1)
      modifies this`updatedNodes, batch
      ensures update == NodeOf(hash, m, height) && InBatch(batch, iBatch, m, height)
      ensures After(old(updatedNodes), m, height, q, gone, Done(busy, batch, height)) && Fine(Done(busy, batch, height))
      ensures Outside(old(batch[..]), batch[..], iBatch)
    {
      hide NodesIn, SubOk, Half, Agree, Near, Below, Clear, Fine, At, May, After, Done, Held, Names, Outside;
      AtShape(root, m0, height, q, batch, iBatch, busy);
      OneLeaf(hash, m, height);
      OneLeaf(hash, m, height - 1);
      LeafThere(root, m0, m, height, batch, busy, gone);
      var shortcutBatch, i, shortcutKey, shortcutVal,
        isShortcut := LoadChildren(RefOf(shortcut), height - 1, iShortcut, batch, m, busy);
      var newShortcut := hash([shortcutKey.bytes, shortcutVal.bytes, [HeightTag(height)]]);
      ghost var b0 := batch[..];
      LiftLeaf(batch, iBatch, iShortcut, shortcutKey, shortcutVal, height, m);
      ghost var b1 := batch[..];
      StoreMoved(newShortcut, RefOf(shortcut), root, batch, iBatch, height, m0, m, q, gone, busy);
      OutsideTwice(b0, b1, batch[..], iBatch);
      update := Node(newShortcut, true);
    }

    /** The leaf that has moved is stored at the root of a batch, and the batch that it has left is deleted. */
    method StoreMoved(newShortcut: Digest, shortcut: Ref, root: Ref, batch: array<Slot>, iBatch: nat, height: nat,
            ghost m0: Map, ghost m: Map, ghost q: Key, ghost gone: set<Digest>, ghost busy: set<array<Slot>>)
      requires 0 < height && Fine(busy) && At(updatedNodes, root, m0, height, q, batch, iBatch, busy)
      requires May(root, m0, m, height, batch, busy, gone)
      requires |m| == 1 && Sound(m, height) && Sound(m, height - 1) && Near(m.Keys, q, height)
      requires newShortcut == DigestOf(hash, m, height) && Names(hash, shortcut, m, height - 1)
      requires InBatch(batch, iBatch, m, height)
      modifies this`updatedNodes, batch
      ensures InBatch(batch, iBatch, m, height)
      ensures After(old(updatedNodes), m, height, q, gone, Done(busy, batch, height)) && Fine(Done(busy, batch, height))
      ensures Outside(old(batch[..]), batch[..], iBatch)
    {
      hide NodesIn, SubOk, Half, CollisionFree, Right, SavedRight, Agree, Kept, Near, GoneOk, Spared, Held, Away,
        Names, DigestOf;
      if iBatch == 0 {
        StoreBatch(batch, newShortcut, root, height, true, m0, m, q, gone, busy);
      } else if (height - 1) % 4 == 0 {
        ghost var was := updatedNodes;
        DeleteOldNode(shortcut);
        AllAway(was, root, m0, height, gone);
        LeafLeft(was, shortcut, m, height, q, busy, gone);
      } else {
        NothingStored(root, m0, m, height, q, batch, busy, gone);
      }
    }

    lemma AllAway(un: Nodes, root: Ref, m0: Map, height: nat, gone: set<Digest>)
      requires height < BITS && Names(hash, root, m0, height) && Away(un, root, gone)
      ensures forall d :: d in gone ==> d !in un
    {
    }

    /** The batch of a leaf that moves up is there. */
    lemma LeafThere(root: Ref, m0: Map, m: Map, height: nat, batch: array<Slot>, busy: set<array<Slot>>,
            gone: set<Digest>)
      requires 0 < height <= BITS && |m| == 1 && Has(m, height - 1, gone, busy)
      requires May(root, m0, m, height, batch, busy, gone)
      ensures Names(hash, RefOf(NodeOf(hash, m, height - 1)), m, height - 1)
      ensures (height - 1) % 4 == 0 ==> Loadable(updatedNodes, committed.Keys, busy, DigestOf(hash, m, height - 1))
    {
      hide Spared, Away;
      assert (height - 1) % 4 == 0 ==> Needs(hash, m, height - 1, DigestOf(hash, m, height - 1));
    }

    /** The batch that a leaf leaves is deleted. */
    lemma LeafLeft(was: Nodes, shortcut: Ref, m: Map, height: nat, q: Key, busy: set<array<Slot>>, gone: set<Digest>)
      requires 0 < height < BITS && height % 4 != 0 && |m| == 1 && Sound(m, height - 1) && Near(m.Keys, q, height)
      requires Names(hash, shortcut, m, height - 1) && updatedNodes == was - {Named(shortcut)}
      requires forall d :: d in gone ==> d !in was
      requires CollisionFree(hash, universe) && SavedRight(hash, universe, committed) && busy <= repr
      requires Right(hash, universe, was, repr, busy)
      ensures Fine(busy) && After(was, m, height, q, gone, busy)
    {
      hide NodesIn, CollisionFree, SavedRight, Agree, Near, DigestOf, Held, Kept, Right;
      FineShaped(was, busy);
      RightDelete(hash, universe, was, repr, busy, Named(shortcut));
      DeleteKept(hash, universe, was, busy, shortcut, m, height - 1, q, height);
      HeldNothing(hash, updatedNodes, committed.Keys, busy, m, height, gone);
    }

    lemma FineShaped(un: Nodes, busy: set<array<Slot>>)
      requires Right(hash, universe, un, repr, busy)
      ensures ZERO !in un
    {
    }

    /** The array writes of `moveUpShortcut`: key and value go up, and what is below the child in this batch is
        cleared. */
    method LiftLeaf(batch: array<Slot>, iBatch: nat, iShortcut: nat, shortcutKey: Slot, shortcutVal: Slot,
            height: nat, ghost m: Map)
      requires batch.Length == 31 && 0 < height <= BITS && LevelOk(iBatch, height) && |m| == 1
      requires shortcutKey == Data(TheKey(m)) && shortcutVal == Data(m[TheKey(m)])
      requires iShortcut == 2 * iBatch + 1 || iShortcut == 2 * iBatch + 2
      requires InBatch(batch, iShortcut, m, height - 1)
      requires Clear(batch[..], if iShortcut == 2 * iBatch + 1 then 2 * iBatch + 2 else 2 * iBatch + 1)
      modifies batch
      ensures InBatch(batch, iBatch, m, height)
      ensures Outside(old(batch[..]), batch[..], iBatch)
    {
      hide SubOk, Clear, Below;
      ghost var b0 := batch[..];
      MoveLeafUp(hash, b0, iBatch, iShortcut, m, height);
      MovedUpFrame(b0, iBatch, iShortcut, shortcutKey, shortcutVal);
      if (height - 1) % 4 != 0 {
        batch[2 * iShortcut + 1] := Nil;
        batch[2 * iShortcut + 2] := Nil;
      }
      assert batch[..] == if iShortcut < 15 then b0[2 * iShortcut + 1 := Nil][2 * iShortcut + 2 := Nil] else b0;
      batch[2 * iBatch + 1] := shortcutKey;
      batch[2 * iBatch + 2] := shortcutVal;
      assert batch[..] == MovedUp(b0, iBatch, iShortcut, shortcutKey, shortcutVal);
    }

    /** `maybeMoveUpShortcut`: an empty subtree disappears, and a subtree with one leaf becomes that leaf. */
    method MaybeMoveUpShortcut(left: Slot, right: Slot, root: Ref, batch: array<Slot>, iBatch: nat, height: nat,
            ghost m0: Map, ghost m: Map, ghost q: Key, ghost gone: set<Digest>, ghost busy: set<array<Slot>>)
      returns (done: bool, update: Slot)
      requires 0 < height && Fine(busy) && At(updatedNodes, root, m0, height, q, batch, iBatch, busy)
      requires May(root, m0, m, height, batch, busy, gone)
      requires Sound(m, height) && Near(m.Keys, q, height) && ChildrenAre(left, right, m, height)
      requires HalvesHeld(batch[..], iBatch, m, height, gone, busy)
      modifies this`updatedNodes, batch
      ensures done <==> |m| <= 1
      ensures done ==> update == NodeOf(hash, m, height) && Fine(Done(busy, batch, height))
      ensures done ==> After(old(updatedNodes), m, height, q, gone, Done(busy, batch, height))
      ensures done && height % 4 != 0 ==> InBatch(batch, iBatch, m, height)
      ensures !done ==> updatedNodes == old(updatedNodes) && batch[..] == old(batch[..])
      ensures Outside(old(batch[..]), batch[..], iBatch)
    {
      hide NodesIn, CollisionFree, Clear, SubOk, Preimage, Half, Below, Right, SavedRight, Agree, Held, Kept, Near,
        GoneOk, Spared, Away, NodeOf;
      MoveUpCases(left, right, batch[..], iBatch, height, m, gone, busy);
      done, update := false, Nil;
      if left == Nil && right == Nil {
        EmptyNode(m, height);
        if iBatch == 0 {
          ghost var was := updatedNodes;
          DeleteOldNode(root);
          RootLeft(was, root, m0, m, height, q, batch, busy, gone);
        } else {
          NothingStored(root, m0, m, height, q, batch, busy, gone);
          ClearChildren(batch, iBatch, height, m);
        }
        done := true;
      } else if left == Nil {
        if right.shortcut {
          update := MoveUpShortcut(right, root, batch, iBatch, 2 * iBatch + 2, height, m0, m, q, gone, busy);
          done := true;
        }
      } else if right == Nil {
        if left.shortcut {
          update := MoveUpShortcut(left, root, batch, iBatch, 2 * iBatch + 1, height, m0, m, q, gone, busy);
          done := true;
        }
      }
    }

    lemma EmptyNode(m: Map, height: nat)
      requires height <= BITS && |m| == 0
      ensures NodeOf(hash, m, height) == Nil
    {
    }

    /** The root of a batch that holds nothing any more is deleted. */
    lemma RootLeft(was: Nodes, root: Ref, m0: Map, m: Map, height: nat, q: Key, batch: array<Slot>,
            busy: set<array<Slot>>, gone: set<Digest>)
      requires height <= BITS && height % 4 == 0 && |m| == 0 && Sound(m0, height) && Near(m0.Keys, q, height)
      requires Names(hash, root, m0, height) && updatedNodes == was - {Named(root)} && Owned(was, batch, root)
      requires CollisionFree(hash, universe) && SavedRight(hash, universe, committed) && busy <= repr
      requires Right(hash, universe, was, repr, busy) && Away(was, root, gone)
      ensures Fine(busy - {batch}) && After(was, m, height, q, gone, busy - {batch})
    {
      hide NodesIn, CollisionFree, SavedRight, Agree, Near, DigestOf, Held, Right;
      FineShaped(was, busy);
      RightDelete(hash, universe, was, repr, busy, Named(root));
      RightIdle(hash, universe, updatedNodes, repr, busy, batch);
      DeleteKept(hash, universe, was, busy, root, m0, height, q, height);
      HeldNothing(hash, updatedNodes, committed.Keys, busy - {batch}, m, height, gone);
    }

    /** The two children say whether the map below is empty, one entry, or more. */
    lemma MoveUpCases(left: Slot, right: Slot, batch: Batch, i: nat, height: nat, m: Map, gone: set<Digest>,
            busy: set<array<Slot>>)
      requires 0 < height <= BITS && i < 15 && HalvesHeld(batch, i, m, height, gone, busy)
      requires ChildrenAre(left, right, m, height)
      ensures (left == Nil || left.Node?) && (right == Nil || right.Node?)
      ensures SubOk(hash, batch, 2 * i + 1, Half(m, BITS - height, false), height - 1)
        && SubOk(hash, batch, 2 * i + 2, Half(m, BITS - height, true), height - 1)
      ensures left == Nil && right == Nil <==> |m| == 0
      ensures |m| == 1 <==>
              (left == Nil && right.Node? && right.shortcut) || (right == Nil && left.Node? && left.shortcut)
      ensures |m| == 1 && left == Nil ==>
                && Sound(m, height - 1) && Has(m, height - 1, gone, busy) && right == NodeOf(hash, m, height - 1)
                && SubOk(hash, batch, 2 * i + 2, m, height - 1) && Clear(batch, 2 * i + 1)
      ensures |m| == 1 && right == Nil ==>
                && Sound(m, height - 1) && Has(m, height - 1, gone, busy) && left == NodeOf(hash, m, height - 1)
                && SubOk(hash, batch, 2 * i + 1, m, height - 1) && Clear(batch, 2 * i + 2)
    {
      hide Clear, SubOk, Preimage, Half, Held, NodesIn, Agree;
      HalvesJoin(m, BITS - height);
      if |m| == 1 && left == Nil { OneSided(hash, batch, i, m, height, true); }
      if |m| == 1 && right == Nil { OneSided(hash, batch, i, m, height, false); }
    }

    method ClearChildren(batch: array<Slot>, iBatch: nat, ghost height: nat, ghost m: Map)
      requires batch.Length == 31 && iBatch < 15 && 0 < height <= BITS && |m| == 0
      requires InBatch(batch, 2 * iBatch + 1, Half(m, BITS - height, false), height - 1)
      requires InBatch(batch, 2 * iBatch + 2, Half(m, BITS - height, true), height - 1)
      modifies batch
      ensures InBatch(batch, iBatch, m, height)
      ensures forall j :: 0 <= j < 31 && !Below(iBatch, j) ==> batch[j] == old(batch[j])
    {
      hide SubOk, Half;
      ghost var b0 := batch[..];
      assert Below(iBatch, 2 * iBatch + 1) && Below(iBatch, 2 * iBatch + 2);
      batch[2 * iBatch + 1] := Nil;
      batch[2 * iBatch + 2] := Nil;
      assert batch[..] == b0[2 * iBatch + 1 := Nil][2 * iBatch + 2 := Nil];
      PutNothing(hash, b0, iBatch, m, height);
    }

    /** The end of an update above the two children: move a lone leaf up if something was deleted, or hash. */
    method Finish(left: Slot, right: Slot, deleted: bool, root: Ref, batch: array<Slot>, iBatch: nat, height: nat,
            ghost m0: Map, ghost m: Map, ghost q: Key, ghost gone: set<Digest>, ghost busy: set<array<Slot>>)
      returns (update: Slot, del: bool)
      requires 0 < height && Fine(busy) && At(updatedNodes, root, m0, height, q, batch, iBatch, busy)
      requires May(root, m0, m, height, batch, busy, gone)
      requires Sound(m, height) && Near(m.Keys, q, height) && ChildrenAre(left, right, m, height)
      requires HalvesHeld(batch[..], iBatch, m, height, gone, busy)
      requires deleted || |m| >= 2
      modifies this`updatedNodes, batch
      ensures update == NodeOf(hash, m, height) && (height % 4 != 0 ==> InBatch(batch, iBatch, m, height))
      ensures After(old(updatedNodes), m, height, q, gone, Done(busy, batch, height)) && Fine(Done(busy, batch, height))
      ensures del || |m| >= 2
      ensures Outside(old(batch[..]), batch[..], iBatch)
    {
      hide NodesIn, CollisionFree, Clear, SubOk, Preimage, Half, Below, Right, SavedRight, Agree, Held, Kept, Near,
        GoneOk, Spared, Away, NodeOf;
      if deleted {
        var done;
        done, update := MaybeMoveUpShortcut(left, right, root, batch, iBatch, height, m0, m, q, gone, busy);
        if done {
          return update, true;
        }
      }
      update := InteriorHash(left, right, root, batch, iBatch, height, m0, m, q, gone, busy);
      del := false;
    }

    // -------------------------------------------------------------- update

    /** What is known where a node's children are updated: m0 was here, m is what is here after its shortcut, if it was
        one, has joined the writes. */
    ghost predicate Planned(un: Nodes, root: Ref, m0: Map, m: Map, kv: seq<KV>, height: nat, batch: array<Slot>,
            busy: set<array<Slot>>, gone: set<Digest>)
      requires height <= BITS
      reads this`committed
    {
      && (m == m0 || (|m0| == 1 && m == map[])) && |m| != 1
      && (height % 4 == 0 && |m0| <= 1 ==> Named(root) !in un)
      && GoneOk(hash, root, Apply(m, kv), height, gone) && GoneBelow(hash, m, kv, height) <= gone
      && (forall d :: d in gone && d !in GoneBelow(hash, m, kv, height) ==>
           d == Named(root) && height % 4 == 0 && (root.Bare? || |m0| == 1))
      && (height % 4 == 0 && root.Flagged? && |m0| == 1 && Apply(m, kv) == m0 ==> root.digest in gone)
      && (height % 4 == 0 && root.Flagged? && |m0| >= 2 ==>
           Loadable(un, committed.Keys, Done(busy, batch, height), root.digest))
    }

    /** `update`: the writes kv in the subtree of m.  The result says whether something was deleted, so that a lone
        sibling may have to move up; if not, nothing has to. */
    method Update(root: Ref, kv: seq<KV>, batch0: array?<Slot>, iBatch0: nat, height: nat, ghost m: Map,
            ghost busy: set<array<Slot>>)
      returns (update: Slot, deleted: bool)
      requires height <= BITS && kv != []
      requires height % 4 != 0 ==> batch0 != null && batch0 in busy && InSlot(batch0, iBatch0, m, height)
      requires Writable(kv, m, height) && Covers(hash, universe, Apply(m, kv), height)
      requires Fine(busy) && Ready(root, m, height, busy)
      modifies this`updatedNodes, this`repr, repr
      ensures height % 4 != 0 ==> Outside(old(batch0[..]), batch0[..], iBatch0)
      ensures height % 4 != 0 ==> InBatch(batch0, iBatch0, Apply(m, kv), height)
      ensures update == NodeOf(hash, Apply(m, kv), height)
      ensures var m' := Apply(m, kv); deleted || |m'| >= 2 || (|m'| >= |m| && |m'| >= |kv|)
      ensures Fine(busy) && old(repr) <= repr && fresh(repr - old(repr))
      ensures After(old(updatedNodes), Apply(m, kv), height, kv[0].k, Gone(hash, root, m, kv, height), busy)
      ensures unchanged(Others(busy, batch0, height))
      decreases height, 4
    {
      hide NodesIn, SubOk, Held, After, Apply, Covers, NodeOf, Gone, Fine, At, Writable, Outside, InSlot, InBatch,
        Owned, Names, Agree;
      if height == 0 {
        update, deleted := UpdateBottom(root, kv, m, busy);
        return;
      }
      FineRepr(busy);
      var batch, iBatch, lnode, rnode, isShortcut := TakeChildren(root, kv, height, iBatch0, batch0, m, busy);
      assert Done(busy + {batch}, batch, height) == busy;
      update, deleted := UpdateNode(root, kv, batch, iBatch, lnode, rnode, isShortcut, height, m, busy + {batch});
    }

    /** `loadChildren`, and the batch is in use. */
    method TakeChildren(root: Ref, ghost kv: seq<KV>, height: nat, iBatch0: nat, batch0: array?<Slot>, ghost m: Map,
            ghost busy: set<array<Slot>>)
      returns (batch: array<Slot>, iBatch: nat, lnode: Slot, rnode: Slot, isShortcut: bool)
      requires 0 < height <= BITS && kv != []
      requires height % 4 != 0 ==> batch0 != null && batch0 in busy && InSlot(batch0, iBatch0, m, height)
      requires Writable(kv, m, height) && Fine(busy) && Ready(root, m, height, busy)
      modifies this`repr
      ensures LevelOk(iBatch, height) && batch.Length == 31
      ensures lnode == batch[2 * iBatch + 1] && rnode == batch[2 * iBatch + 2]
      ensures InBatch(batch, iBatch, m, height) && (isShortcut <==> |m| == 1)
      ensures if height % 4 == 0 then batch !in busy else batch == batch0 && iBatch == iBatch0
      ensures Fine(busy + {batch}) && At(updatedNodes, root, m, height, kv[0].k, batch, iBatch, busy + {batch})
      ensures repr == old(repr) + {batch} && (batch in old(repr) || fresh(batch))
    {
      hide NodesIn, SubOk, Held, CollisionFree, Right, SavedRight, Agree, Names, DigestOf, NodeOf, At, Writable, Owned;
      IsThere(root, m, height, busy);
      FineShape(busy);
      batch, iBatch, lnode, rnode, isShortcut := LoadChildren(root, height, iBatch0, batch0, m, busy);
      ghost var busy1 := busy + {batch};
      Taken(batch, busy, busy1);
      repr := repr + {batch};
      FineAgain(busy1);
      FineShape(busy1);
      InUse(root, m, height, batch, iBatch, kv, busy, busy1);
    }

    /** A node in its slot, and what is below it. */
    ghost predicate InSlot(batch: array<Slot>, i: nat, m: Map, height: nat)
      reads batch
    {
      && batch.Length == 31 && height <= BITS && LevelOk(i, height) && batch[i] == NodeOf(hash, m, height)
      && InBatch(batch, i, m, height)
    }

    lemma IsThere(root: Ref, m: Map, height: nat, busy: set<array<Slot>>)
      requires Ready(root, m, height, busy)
      ensures height % 4 == 0 && |m| > 0 ==>
                Loadable(updatedNodes, committed.Keys, busy, DigestOf(hash, m, height))
                && Named(root) == DigestOf(hash, m, height)
    {
      hide Held, DigestOf, NodesIn, Agree;
      OwnBatch(m, height, busy);
    }

    /** A loaded batch is taken in use. */
    lemma Taken(batch: array<Slot>, busy: set<array<Slot>>, busy1: set<array<Slot>>)
      requires Fine(busy) && batch.Length == 31 && busy1 == busy + {batch}
      ensures Right(hash, universe, updatedNodes, repr + {batch}, busy1) && busy1 <= repr + {batch}
      ensures CollisionFree(hash, universe) && SavedRight(hash, universe, committed)
    {
      hide Right, SavedRight, CollisionFree;
      RightBusier(hash, universe, updatedNodes, repr, busy, batch);
    }

    lemma FineAgain(busy: set<array<Slot>>)
      requires Right(hash, universe, updatedNodes, repr, busy) && busy <= repr
      requires CollisionFree(hash, universe) && SavedRight(hash, universe, committed)
      ensures Fine(busy)
    {
    }

    lemma InUse(root: Ref, m: Map, height: nat, batch: array<Slot>, iBatch: nat, kv: seq<KV>, busy: set<array<Slot>>,
            busy1: set<array<Slot>>)
      requires Ready(root, m, height, busy) && Writable(kv, m, height) && LevelOk(iBatch, height) && batch.Length == 31
      requires batch in busy1 && Shaped(updatedNodes, repr)
      requires height % 4 == 0 && batch in updatedNodes.Values ==>
                 |m| > 0 && DigestOf(hash, m, height) in updatedNodes
                 && batch == updatedNodes[DigestOf(hash, m, height)]
      ensures At(updatedNodes, root, m, height, kv[0].k, batch, iBatch, busy1)
    {
      hide NodesIn, DigestOf, Agree, KeysOf;
      WritableNear(kv, m, height);
      forall d | height % 4 == 0 && d in updatedNodes && updatedNodes[d] == batch ensures d == Named(root) {
        assert batch in updatedNodes.Values;
      }
    }

    /** A node with its batch at hand. */
    method UpdateNode(root: Ref, kv: seq<KV>, batch: array<Slot>, iBatch: nat, lnode0: Slot, rnode0: Slot,
            isShortcut: bool, height: nat, ghost m: Map, ghost busy: set<array<Slot>>)
      returns (update: Slot, deleted: bool)
      requires 0 < height <= BITS && LevelOk(iBatch, height) && batch.Length == 31
      requires lnode0 == batch[2 * iBatch + 1] && rnode0 == batch[2 * iBatch + 2]
      requires InBatch(batch, iBatch, m, height) && (isShortcut <==> |m| == 1)
      requires Writable(kv, m, height) && Covers(hash, universe, Apply(m, kv), height) && Fine(busy)
      requires At(updatedNodes, root, m, height, kv[0].k, batch, iBatch, busy)
        && Has(m, height, {}, Done(busy, batch, height))
      modifies this`updatedNodes, this`repr, repr
      ensures Outside(old(batch[..]), batch[..], iBatch)
      ensures height % 4 != 0 ==> InBatch(batch, iBatch, Apply(m, kv), height)
      ensures update == NodeOf(hash, Apply(m, kv), height)
      ensures var m' := Apply(m, kv); deleted || |m'| >= 2 || (|m'| >= |m| && |m'| >= |kv|)
      ensures Fine(Done(busy, batch, height)) && old(repr) <= repr && fresh(repr - old(repr))
      ensures After(old(updatedNodes), Apply(m, kv), height, kv[0].k, Gone(hash, root, m, kv, height),
                Done(busy, batch, height))
      ensures unchanged(busy - {batch})
      decreases height, 3
    {
      hide NodesIn, CollisionFree, Clear, SubOk, Preimage, Half, Below, Right, SavedRight, Agree, Held, Kept, Near,
        Apply, Covers, KeysOf, NodeOf, Gone, GoneBelow, GoneOk, Planned, Names, Owned;
      var kv1, lnode, rnode := kv, lnode0, rnode0;
      ghost var q, gone, out := kv[0].k, Gone(hash, root, m, kv, height), Done(busy, batch, height);
      ghost var m1, was := m, updatedNodes;
      WritableShort(kv, m, height);
      if isShortcut {
        kv1 := PushDown(kv, batch, iBatch, height, m);
        lnode, rnode, m1 := Nil, Nil, map[];
        if iBatch == 0 {
          DeleteOldNode(root);
        }
        ShortcutDeleted(was, root, kv, m, height, batch, iBatch, q, busy, gone);
        if kv1 == [] {
          ShortcutGone(was, root, m, kv, height, batch, q, busy, gone);
          assert Apply(m, kv) == m1;
          update, deleted := Nil, true;
          return;
        }
        PlannedShortcut(root, m, kv, kv1, height, batch, busy, gone);
      } else {
        FineShape(busy);
        PlannedNode(root, m, kv, height, batch, busy, gone);
        KeptSame(hash, universe, was, out, q, height);
      }
      ghost var mid := updatedNodes;
      NearAgain(kv, m, kv1, height);
      EmptySound(height);
      update, deleted := UpdateBelow(lnode, rnode, kv1, root, batch, iBatch, height, m, m1, q, gone, busy);
      KeptTwice(hash, universe, was, mid, updatedNodes, out, q, height);
    }

    /** The old batch of a shortcut that moves, if it had one, is deleted. */
    lemma ShortcutDeleted(was: Nodes, root: Ref, kv: seq<KV>, m: Map, height: nat, batch: array<Slot>, iBatch: nat,
            q: Key, busy: set<array<Slot>>, gone: set<Digest>)
      requires 0 < height <= BITS && LevelOk(iBatch, height) && |m| == 1 && Sound(m, height) && Near(m.Keys, q, height)
      requires Names(hash, root, m, height) && batch in busy && (height % 4 == 0 ==> Owned(was, batch, root))
      requires CollisionFree(hash, universe) && SavedRight(hash, universe, committed) && busy <= repr
      requires Right(hash, universe, was, repr, busy)
      requires updatedNodes == if iBatch == 0 then was - {Named(root)} else was
      ensures Fine(busy) && Kept(hash, universe, was, updatedNodes, Done(busy, batch, height), q, height)
      ensures height % 4 == 0 ==> Named(root) !in updatedNodes && Owned(updatedNodes, batch, root)
      ensures Fine(Done(busy, batch, height))
    {
      hide NodesIn, CollisionFree, SavedRight, Agree, Near, DigestOf, Right, Kept, Names;
      FineShaped(was, busy);
      if iBatch == 0 {
        RightDelete(hash, universe, was, repr, busy, Named(root));
        DeleteKept(hash, universe, was, busy - {batch}, root, m, height, q, height);
        RightIdle(hash, universe, updatedNodes, repr, busy, batch);
      } else {
        KeptSame(hash, universe, was, busy, q, height);
      }
    }

    lemma ShortcutGone(was: Nodes, root: Ref, m: Map, kv: seq<KV>, height: nat, batch: array<Slot>, q: Key,
            busy: set<array<Slot>>, gone: set<Digest>)
      requires height <= BITS && Names(hash, root, m, height) && |m| == 1 && gone == Gone(hash, root, m, kv, height)
      requires height % 4 == 0 ==> Named(root) !in updatedNodes
      requires Kept(hash, universe, was, updatedNodes, Done(busy, batch, height), q, height)
      ensures After(was, map[], height, q, gone, Done(busy, batch, height))
      ensures NodeOf(hash, map[], height) == Nil
    {
      hide Held, Kept, DigestOf, Gone, GoneOk, Apply;
      GoneGood(hash, root, m, kv, height);
      HeldNothing(hash, updatedNodes, committed.Keys, Done(busy, batch, height), map[], height, gone);
    }

    lemma PlannedShortcut(root: Ref, m: Map, kv: seq<KV>, kv1: seq<KV>, height: nat, batch: array<Slot>,
            busy: set<array<Slot>>, gone: set<Digest>)
      requires 0 < height <= BITS && |m| == 1 && Names(hash, root, m, height) && kv != []
      requires gone == Gone(hash, root, m, kv, height) && Apply(map[], kv1) == Apply(m, kv)
      requires height % 4 == 0 ==> Named(root) !in updatedNodes
      ensures Planned(updatedNodes, root, m, map[], kv1, height, batch, busy, gone)
        && Has(map[], height, {}, Done(busy, batch, height))
    {
      hide Held, DigestOf, Gone, GoneBelow, GoneOk, Apply, Loadable;
      GoneGood(hash, root, m, kv, height);
      NoneGone(hash, map[], kv1, height);
      HeldNothing(hash, updatedNodes, committed.Keys, Done(busy, batch, height), map[], height, {});
    }

    lemma PlannedNode(root: Ref, m: Map, kv: seq<KV>, height: nat, batch: array<Slot>, busy: set<array<Slot>>,
            gone: set<Digest>)
      requires 0 < height <= BITS && |m| != 1 && Names(hash, root, m, height) && kv != [] && ZERO !in updatedNodes
      requires gone == Gone(hash, root, m, kv, height) && Has(m, height, {}, Done(busy, batch, height))
      ensures Planned(updatedNodes, root, m, m, kv, height, batch, busy, gone)
    {
      hide DigestOf, GoneBelow, GoneOk, Apply, Loadable, Held, Needs;
      GoneGood(hash, root, m, kv, height);
      OwnBatch(m, height, Done(busy, batch, height));
    }

    lemma OwnBatch(m: Map, height: nat, busy: set<array<Slot>>)
      requires height <= BITS && Has(m, height, {}, busy)
      ensures height % 4 == 0 && |m| > 0 ==>
                Loadable(updatedNodes, committed.Keys, busy, DigestOf(hash, m, height))
    {
      assert height % 4 == 0 && |m| > 0 ==> Needs(hash, m, height, DigestOf(hash, m, height));
    }

    /** Height 0: the key is the only one that fits here. */
    method UpdateBottom(root: Ref, kv: seq<KV>, ghost m: Map, ghost busy: set<array<Slot>>)
      returns (update: Slot, deleted: bool)
      requires Fine(busy) && Ready(root, m, 0, busy) && Writable(kv, m, 0) && Covers(hash, universe, Apply(m, kv), 0)
      modifies this`updatedNodes, this`repr
      ensures Fine(busy) && old(repr) <= repr && fresh(repr - old(repr))
      ensures update == NodeOf(hash, Apply(m, kv), 0)
      ensures After(old(updatedNodes), Apply(m, kv), 0, kv[0].k, Gone(hash, root, m, kv, 0), busy)
      ensures var m' := Apply(m, kv); deleted || (|m'| >= |m| && |m'| >= |kv|)
    {
      hide NodesIn, SubOk, Covers, Apply, KeysOf, Agree, Writable, CollisionFree, Right, SavedRight, Held, Near,
        GoneOk, Gone, Fine, At, May, After, Outside, NodeOf, Kept;
      BottomWrites(kv, m);
      WritablePlaced(kv, m, 0);
      WritableNear(kv, m, 0);
      NearItself(kv[0].k, 0);
      FineShape(busy);
      FineParts(busy);
      CoversNode(hash, universe, Apply(m, kv), 0);
      GoneGood(hash, root, m, kv, 0);
      ghost var q, was := kv[0].k, updatedNodes;
      if kv[0].v == None {
        DeleteOldNode(root);
        BottomDeleted(was, root, m, q, busy);
        return Nil, true;
      }
      var batch := NewBatch(Nil);
      ClearAll(batch[..], 0);
      Taken(batch, busy, busy + {batch});
      repr := repr + {batch};
      FineAgain(busy + {batch});
      BottomReady(root, m, Apply(m, kv), batch, q, busy);
      assert Done(busy + {batch}, batch, 0) == busy;
      update := LeafHash(kv[0].k, kv[0].v.value, root, batch, 0, 0, m, q, {}, busy + {batch});
      deleted := false;
    }

    lemma BottomDeleted(was: Nodes, root: Ref, m: Map, q: Key, busy: set<array<Slot>>)
      requires Sound(m, 0) && Names(hash, root, m, 0) && Near(m.Keys, q, 0) && updatedNodes == was - {Named(root)}
      requires CollisionFree(hash, universe) && SavedRight(hash, universe, committed) && busy <= repr
      requires Right(hash, universe, was, repr, busy)
      ensures Fine(busy) && After(was, map[], 0, q, {}, busy) && NodeOf(hash, map[], 0) == Nil
    {
      hide NodesIn, CollisionFree, SavedRight, Agree, Near, DigestOf, Held, Right, Kept;
      FineShaped(was, busy);
      RightDelete(hash, universe, was, repr, busy, Named(root));
      DeleteKept(hash, universe, was, busy, root, m, 0, q, 0);
      HeldNothing(hash, updatedNodes, committed.Keys, busy, map[], 0, {});
    }

    lemma BottomReady(root: Ref, m: Map, m': Map, batch: array<Slot>, q: Key, busy: set<array<Slot>>)
      requires Ready(root, m, 0, busy) && Near(m.Keys, q, 0) && batch.Length == 31
      requires forall d :: d in updatedNodes ==> updatedNodes[d] != batch
      requires GoneOk(hash, root, m', 0, {}) && batch !in busy
      ensures At(updatedNodes, root, m, 0, q, batch, 0, busy + {batch})
        && May(root, m, m', 0, batch, busy + {batch}, {})
    {
      hide NodesIn, Agree, Near, GoneOk, Held, DigestOf;
      assert busy + {batch} - {batch} == busy;
      IsThere(root, m, 0, busy);
    }

    /** The shortcut of a subtree that is being updated joins the writes, and its place is cleared. */
    method PushDown(kv: seq<KV>, batch: array<Slot>, iBatch: nat, height: nat, ghost m: Map) returns (kv1: seq<KV>)
      requires |m| == 1 && 0 < height && Writable(kv, m, height)
      requires batch.Length == 31 && LevelOk(iBatch, height) && InBatch(batch, iBatch, m, height)
      modifies batch
      ensures Apply(map[], kv1) == Apply(m, kv)
      ensures if kv1 == [] then Apply(m, kv) == map[] else Writable(kv1, map[], height)
      ensures KeysOf(kv1) <= KeysOf(kv) + m.Keys
      ensures InBatch(batch, iBatch, map[], height)
      ensures batch[2 * iBatch + 1] == Nil && batch[2 * iBatch + 2] == Nil
      ensures forall j :: 0 <= j < 31 && !Below(iBatch, j) ==> batch[j] == old(batch[j])
    {
      hide Apply, Preimage, SubOk, Clear, KeysOf, SameBits, DeletedInside;
      ghost var b0 := batch[..];
      OneLeaf(hash, m, height);
      var k, v := batch[2 * iBatch + 1].bytes, batch[2 * iBatch + 2].bytes;
      OneEntry(m, k);
      OneNotInside(kv, k);
      kv1 := MaybeAddShortcut(kv, k, v);
      if kv1 == [] { ApplyNone(map[]); }
      assert Agree(KeysOf(kv1), BITS - height);
      DropLeaf(hash, b0, iBatch, m, height);
      assert Below(iBatch, 2 * iBatch + 1) && Below(iBatch, 2 * iBatch + 2);
      batch[2 * iBatch + 1] := Nil;
      batch[2 * iBatch + 2] := Nil;
      assert batch[..] == b0[2 * iBatch + 1 := Nil][2 * iBatch + 2 := Nil];
      ClearIsEmpty(hash, batch[..], iBatch, height);
    }

    /** One write into an empty subtree makes or does not make a shortcut; otherwise both sides are updated. */
    method UpdateBelow(lnode: Slot, rnode: Slot, kv: seq<KV>, root: Ref, batch: array<Slot>, iBatch: nat, height: nat,
            ghost m0: Map, ghost m: Map, ghost q: Key, ghost gone: set<Digest>, ghost busy: set<array<Slot>>)
      returns (update: Slot, deleted: bool)
      requires 0 < height <= BITS && LevelOk(iBatch, height) && batch.Length == 31
      requires lnode == batch[2 * iBatch + 1] && rnode == batch[2 * iBatch + 2]
      requires Fine(busy) && At(updatedNodes, root, m0, height, q, batch, iBatch, busy)
      requires Planned(updatedNodes, root, m0, m, kv, height, batch, busy, gone)
      requires Writable(kv, m, height) && Near(KeysOf(kv), q, height) && Covers(hash, universe, Apply(m, kv), height)
      requires Sound(m, height) && Has(m, height, {}, Done(busy, batch, height))
      requires InBatch(batch, iBatch, m, height)
      modifies this`updatedNodes, this`repr, repr
      ensures Outside(old(batch[..]), batch[..], iBatch)
      ensures height % 4 != 0 ==> InBatch(batch, iBatch, Apply(m, kv), height)
      ensures update == NodeOf(hash, Apply(m, kv), height)
      ensures var m' := Apply(m, kv); deleted || |m'| >= 2 || (|m'| >= 1 && |m0| <= 1 && |kv| == 1)
      ensures Fine(Done(busy, batch, height)) && old(repr) <= repr && fresh(repr - old(repr))
      ensures After(old(updatedNodes), Apply(m, kv), height, q, gone, Done(busy, batch, height))
      ensures unchanged(busy - {batch})
      decreases height, 2
    {
      hide NodesIn, CollisionFree, Clear, SubOk, Preimage, Half, Below, Right, SavedRight, Agree, Held, Kept, Near,
        Apply, Covers, KeysOf, NodeOf, Gone, GoneBelow, GoneOk, Planned, Names, Owned;
      WritableShort(kv, m, height);
      PlannedShape(root, m0, m, kv, height, batch, busy, gone);
      ChildrenReady(batch[..], iBatch, m, height);
      if lnode == Nil && rnode == Nil && |kv| == 1 {
        assert |m| == 0 && m == map[] && kv == [kv[0]];
        update, deleted := NewShortcut(kv[0], root, batch, iBatch, height, m0, q, gone, busy);
        return;
      }
      SidesReady(root, m0, m, height, q, batch, iBatch, kv, busy, gone);
      update, deleted := UpdateChildren(lnode, rnode, kv, root, batch, iBatch, height, m0, m, q, gone, busy);
    }

    lemma PlannedShape(root: Ref, m0: Map, m: Map, kv: seq<KV>, height: nat, batch: array<Slot>,
            busy: set<array<Slot>>, gone: set<Digest>)
      requires height <= BITS && Planned(updatedNodes, root, m0, m, kv, height, batch, busy, gone)
      ensures (m == m0 || (|m0| == 1 && m == map[])) && |m| != 1
    {
    }

    /** The two children of a node in place, whether it is empty or interior. */
    lemma ChildrenReady(batch: Batch, i: nat, m: Map, h: nat)
      requires 0 < h <= BITS && LevelOk(i, h) && Sound(m, h) && SubOk(hash, batch, i, m, h) && |m| != 1
      ensures Sound(Half(m, BITS - h, false), h - 1) && SubOk(hash, batch, 2 * i + 1, Half(m, BITS - h, false), h - 1)
      ensures Sound(Half(m, BITS - h, true), h - 1) && SubOk(hash, batch, 2 * i + 2, Half(m, BITS - h, true), h - 1)
      ensures (h - 1) % 4 != 0 ==> LevelOk(2 * i + 1, h - 1) && LevelOk(2 * i + 2, h - 1)
      ensures (h - 1) % 4 == 0 ==> i >= 7
      ensures ChildrenAre(batch[2 * i + 1], batch[2 * i + 2], m, h)
      ensures (batch[2 * i + 1] == Nil && batch[2 * i + 2] == Nil) <==> |m| == 0
    {
      hide NodesIn, Preimage, Agree, Half, SubOk, CollisionFree;
      HalvesJoin(m, BITS - h);
      PlacedHalf(m, h, false);
      PlacedHalf(m, h, true);
      ReadyHalf(batch, i, m, h);
    }

    lemma ReadyHalf(batch: Batch, i: nat, m: Map, h: nat)
      requires 0 < h <= BITS && LevelOk(i, h) && Sound(m, h) && SubOk(hash, batch, i, m, h) && |m| != 1
      ensures NodesIn(hash, universe, Half(m, BITS - h, false), h - 1)
      ensures NodesIn(hash, universe, Half(m, BITS - h, true), h - 1)
      ensures SubOk(hash, batch, 2 * i + 1, Half(m, BITS - h, false), h - 1)
        && SubOk(hash, batch, 2 * i + 2, Half(m, BITS - h, true), h - 1)
      ensures batch[2 * i + 1] == NodeOf(hash, Half(m, BITS - h, false), h - 1)
        && batch[2 * i + 2] == NodeOf(hash, Half(m, BITS - h, true), h - 1)
    {
      hide Preimage, Placed, Half;
      if |m| == 0 {
        HalvesJoin(m, BITS - h);
        ClearIsEmpty(hash, batch, i, h);
        assert m == map[] && Half(m, BITS - h, false) == map[] && Half(m, BITS - h, true) == map[];
      }
    }

    lemma SidesReady(root: Ref, m0: Map, m: Map, height: nat, q: Key, batch: array<Slot>, iBatch: nat, kv: seq<KV>,
            busy: set<array<Slot>>, gone: set<Digest>)
      requires 0 < height <= BITS && Sound(m, height) && Has(m, height, {}, Done(busy, batch, height))
      requires CollisionFree(hash, universe) && At(updatedNodes, root, m0, height, q, batch, iBatch, busy)
      requires (m == m0 || (|m0| == 1 && m == map[])) && |m| != 1
      ensures Has(Half(m, BITS - height, false), height - 1, {}, busy)
      ensures Has(Half(m, BITS - height, true), height - 1, {}, busy)
    {
      hide NodesIn, CollisionFree, Half, Agree, Held, Near;
      if height % 4 == 0 {
        assert busy - {batch} + {batch} == busy;
        HeldBelow(hash, universe, updatedNodes, committed.Keys, busy - {batch}, batch, m, height);
      } else {
        HeldHalves(hash, updatedNodes, committed.Keys, busy, m, height, {});
      }
    }

    /** One write into an empty subtree: a shortcut, or nothing. */
    method NewShortcut(w: KV, root: Ref, batch: array<Slot>, iBatch: nat, height: nat, ghost m0: Map, ghost q: Key,
            ghost gone: set<Digest>, ghost busy: set<array<Slot>>)
      returns (update: Slot, deleted: bool)
      requires 0 < height && Fine(busy) && At(updatedNodes, root, m0, height, q, batch, iBatch, busy)
      requires Planned(updatedNodes, root, m0, map[], [w], height, batch, busy, gone)
      requires Writable([w], map[], height) && Near(KeysOf([w]), q, height)
      requires Covers(hash, universe, Apply(map[], [w]), height) && InBatch(batch, iBatch, map[], height)
      modifies this`updatedNodes, batch
      ensures var m' := Apply(map[], [w]);
              && update == NodeOf(hash, m', height) && (deleted || |m'| >= 1)
              && After(old(updatedNodes), m', height, q, gone, Done(busy, batch, height))
              && (height % 4 != 0 ==> InBatch(batch, iBatch, m', height))
      ensures Fine(Done(busy, batch, height)) && |m0| <= 1
      ensures Outside(old(batch[..]), batch[..], iBatch)
    {
      hide NodesIn, SubOk, Preimage, Covers, Clear, Apply, Below, CollisionFree, Right, SavedRight, Agree, Held, Kept,
        Near, GoneOk, Spared, Away, Planned, Owned, Names;
      WritablePlaced([w], map[], height);
      CoversNode(hash, universe, Apply(map[], [w]), height);
      ApplyOfOne(map[], w);
      PlannedMay(root, m0, [w], height, q, batch, iBatch, busy, gone);
      if w.v == None {
        NothingNew(root, m0, height, q, batch, iBatch, busy, gone);
        assert ApplyOne(map[], w) == map[];
        return Nil, true;
      }
      ClearIsEmpty(hash, batch[..], iBatch, height);
      update := LeafHash(w.k, w.v.value, root, batch, iBatch, height, m0, q, gone, busy);
      deleted := false;
    }

    lemma PlannedMay(root: Ref, m0: Map, kv: seq<KV>, height: nat, q: Key, batch: array<Slot>, iBatch: nat,
            busy: set<array<Slot>>, gone: set<Digest>)
      requires height <= BITS && At(updatedNodes, root, m0, height, q, batch, iBatch, busy)
      requires Planned(updatedNodes, root, m0, map[], kv, height, batch, busy, gone)
      ensures May(root, m0, Apply(map[], kv), height, batch, busy, gone) && |m0| <= 1
      ensures forall d :: d in gone ==> d !in updatedNodes
      ensures height % 4 == 0 ==> Named(root) !in updatedNodes
    {
      NoneGone(hash, map[], kv, height);
      hide GoneBelow, GoneOk, Apply, NodesIn, Agree, Near, DigestOf, Owned;
    }

    lemma NothingNew(root: Ref, m0: Map, height: nat, q: Key, batch: array<Slot>, iBatch: nat, busy: set<array<Slot>>,
            gone: set<Digest>)
      requires Fine(busy) && At(updatedNodes, root, m0, height, q, batch, iBatch, busy)
      requires forall d :: d in gone ==> d !in updatedNodes
      requires height % 4 == 0 ==> Named(root) !in updatedNodes
      ensures After(updatedNodes, map[], height, q, gone, Done(busy, batch, height)) && Fine(Done(busy, batch, height))
      ensures NodeOf(hash, map[], height) == Nil
    {
      hide NodesIn, CollisionFree, SavedRight, Agree, Near, DigestOf, Held, Right, Kept;
      HeldNothing(hash, updatedNodes, committed.Keys, Done(busy, batch, height), map[], height, gone);
      KeptSame(hash, universe, updatedNodes, Done(busy, batch, height), q, height);
      if height % 4 == 0 { RightIdle(hash, universe, updatedNodes, repr, busy, batch); }
    }

    /** A child slot and the subtree below it are ready for an update. */
    ghost predicate SideReady(un: Nodes, batch: Batch, i: nat, half: Map, h: nat, busy: set<array<Slot>>)
      requires h <= BITS && i < 31
      reads this`committed
    {
      && Sound(half, h) && Held(hash, un, committed.Keys, busy, half, h, {}) && SubOk(hash, batch, i, half, h)
      && (h % 4 != 0 ==> LevelOk(i, h) && batch[i] == NodeOf(hash, half, h))
    }

    /** The writes of a side, if there are any, may be written there. */
    ghost predicate Due(kv: seq<KV>, half: Map, height: nat, q: Key) {
      height <= BITS && (kv != [] ==>
        Writable(kv, half, height) && Covers(hash, universe, Apply(half, kv), height) && q == kv[0].k)
    }

    /** The writes of one side; a side without writes keeps its node. */
    method UpdateSide(node: Slot, kv: seq<KV>, batch: array<Slot>, i: nat, height: nat, ghost half: Map, ghost q: Key,
            ghost busy: set<array<Slot>>)
      returns (update: Slot, deleted: bool)
      requires Fine(busy) && batch in busy && batch.Length == 31 && i < 31 && height < BITS
      requires SideReady(updatedNodes, batch[..], i, half, height, busy) && node == NodeOf(hash, half, height)
      requires height % 4 == 0 ==> i >= 15
      requires Due(kv, half, height, q)
      modifies this`updatedNodes, this`repr, repr
      ensures Fine(busy) && old(repr) <= repr && fresh(repr - old(repr))
      ensures update == NodeOf(hash, Apply(half, kv), height)
      ensures After(old(updatedNodes), Apply(half, kv), height, q, GoneBelow(hash, half, kv, height), busy)
      ensures var m' := Apply(half, kv); deleted || |m'| >= 2 || (|m'| >= |half| && |m'| >= |kv|)
      ensures InBatch(batch, i, Apply(half, kv), height)
      ensures kv == [] ==> updatedNodes == old(updatedNodes)
      ensures unchanged(busy - {batch})
      ensures Outside(old(batch[..]), batch[..], i)
      decreases height, 5
    {
      hide NodesIn, CollisionFree, Clear, SubOk, Preimage, Half, Below, Right, SavedRight, Agree, Held, Kept, Near,
        Apply, Covers, KeysOf, GoneBelow, Writable;
      if kv == [] {
        ApplyNone(half);
        SideKept(half, kv, height, q, busy);
        return node, false;
      }
      ghost var b0 := batch[..];
      update, deleted := Update(RefOf(node), kv, batch, i, height, half, busy);
      assert Gone(hash, RefOf(node), half, kv, height) == GoneBelow(hash, half, kv, height);
      if height % 4 == 0 {
        BottomSide(hash, batch[..], i, Apply(half, kv), height);
      }
    }

    lemma SideKept(half: Map, kv: seq<KV>, height: nat, q: Key, busy: set<array<Slot>>)
      requires height <= BITS && kv == [] && Has(half, height, {}, busy)
      ensures GoneBelow(hash, half, kv, height) == {}
      ensures After(updatedNodes, half, height, q, {}, busy)
    {
      KeptSame(hash, universe, updatedNodes, busy, q, height);
      hide Held, Kept;
    }

    /** How the two sides were updated, one after the other. */
    ghost predicate SidesAfter(s0: Nodes, s1: Nodes, m: Map, kv: seq<KV>, height: nat, q: Key, ql: Key, qr: Key,
            busy: set<array<Slot>>)
      requires 0 < height <= BITS
      reads this`updatedNodes, this`committed
    {
      var d, m' := BITS - height, Apply(m, kv);
      var l, r := Going(kv, d, false), Going(kv, d, true);
      && Kept(hash, universe, s0, s1, busy, ql, height - 1)
      && Kept(hash, universe, s1, updatedNodes, busy, qr, height - 1)
      && SameBits(ql, q, d) && SameBits(qr, q, d)
      && (r == [] ==> updatedNodes == s1) && (l == [] || r == [] || m == map[])
      && (forall x :: x in GoneBelow(hash, Half(m, d, false), l, height - 1) ==> x !in s1)
      && (forall x :: x in GoneBelow(hash, Half(m, d, true), r, height - 1) ==> x !in updatedNodes)
      && Has(Half(m', d, false), height - 1, GoneBelow(hash, Half(m, d, false), l, height - 1), busy)
      && Has(Half(m', d, true), height - 1, GoneBelow(hash, Half(m, d, true), r, height - 1), busy)
    }

    /** The two sides are in place below slot i. */
    ghost predicate SidesIn(batch: Batch, i: nat, m: Map, height: nat)
      requires 0 < height <= BITS && i < 15
    {
      && Sound(Half(m, BITS - height, false), height - 1) && Sound(Half(m, BITS - height, true), height - 1)
      && SubOk(hash, batch, 2 * i + 1, Half(m, BITS - height, false), height - 1)
      && SubOk(hash, batch, 2 * i + 2, Half(m, BITS - height, true), height - 1)
    }

    /** Both sides, then the node itself. */
    method UpdateChildren(lnode: Slot, rnode: Slot, kv: seq<KV>, root: Ref, batch: array<Slot>, iBatch: nat,
            height: nat, ghost m0: Map, ghost m: Map, ghost q: Key, ghost gone: set<Digest>,
            ghost busy: set<array<Slot>>)
      returns (update: Slot, deleted: bool)
      requires 0 < height <= BITS && LevelOk(iBatch, height) && batch.Length == 31
      requires lnode == batch[2 * iBatch + 1] && rnode == batch[2 * iBatch + 2]
      requires SidesIn(batch[..], iBatch, m, height) && ChildrenAre(lnode, rnode, m, height)
      requires Has(Half(m, BITS - height, false), height - 1, {}, busy)
        && Has(Half(m, BITS - height, true), height - 1, {}, busy)
      requires Near(KeysOf(kv), q, height) && Covers(hash, universe, Apply(m, kv), height)
      requires Writable(kv, m, height) && (|m| >= 2 || |kv| == 2)
      requires Fine(busy) && At(updatedNodes, root, m0, height, q, batch, iBatch, busy)
      requires Planned(updatedNodes, root, m0, m, kv, height, batch, busy, gone)
      modifies this`updatedNodes, this`repr, repr
      ensures Outside(old(batch[..]), batch[..], iBatch)
      ensures height % 4 != 0 ==> InBatch(batch, iBatch, Apply(m, kv), height)
      ensures update == NodeOf(hash, Apply(m, kv), height) && (deleted || |Apply(m, kv)| >= 2)
      ensures Fine(Done(busy, batch, height)) && old(repr) <= repr && fresh(repr - old(repr))
      ensures After(old(updatedNodes), Apply(m, kv), height, q, gone, Done(busy, batch, height))
      ensures unchanged(busy - {batch})
      decreases height, 1
    {
      hide NodesIn, CollisionFree, Clear, Preimage, Half, Below, Apply, Covers, KeysOf, SubOk, NodeOf, Going, Fine,
        Agree, Held, Kept, Near, Planned, GoneBelow, GoneOk, Names, SidesAfter, May, At, Writable, LevelOk,
        ChildrenAre, SidesIn, HalvesHeld;
      ghost var m', s0 := Apply(m, kv), updatedNodes;
      EndsSound(root, m0, m, kv, height, q, batch, iBatch, busy, gone);
      FineRepr(busy);
      WritableOrder(kv, m, height);
      var lkv, rkv := SplitKeys(kv, BITS - height);
      var left, right, del;
      ghost var s1, ql, qr;
      left, right, del, s1, ql, qr := UpdateSides(lnode, rnode, lkv, rkv, batch, iBatch, height, kv, m, q, busy);
      ghost var s2 := updatedNodes;
      BothDone(s0, s1, root, m0, m, kv, height, q, ql, qr, batch, iBatch, busy, gone);
      HalvesThere(batch[..], iBatch, m', height, gone, busy);
      update, deleted := Finish(left, right, del, root, batch, iBatch, height, m0, m', q, gone, busy);
      KeptTwice(hash, universe, s0, s2, updatedNodes, Done(busy, batch, height), q, height);
    }

    lemma HalvesThere(batch: Batch, i: nat, m: Map, height: nat, gone: set<Digest>, busy: set<array<Slot>>)
      requires 0 < height <= BITS && i < 15 && SidesIn(batch, i, m, height)
      requires Has(Half(m, BITS - height, false), height - 1, gone, busy)
      requires Has(Half(m, BITS - height, true), height - 1, gone, busy)
      ensures HalvesHeld(batch, i, m, height, gone, busy)
    {
    }

    /** The tree that the update ends in is in the universe, and near. */
    lemma EndsSound(root: Ref, m0: Map, m: Map, kv: seq<KV>, height: nat, q: Key, batch: array<Slot>, iBatch: nat,
            busy: set<array<Slot>>, gone: set<Digest>)
      requires Writable(kv, m, height) && Covers(hash, universe, Apply(m, kv), height) && Near(KeysOf(kv), q, height)
      requires Planned(updatedNodes, root, m0, m, kv, height, batch, busy, gone)
      requires At(updatedNodes, root, m0, height, q, batch, iBatch, busy)
      ensures Sound(Apply(m, kv), height) && Near(Apply(m, kv).Keys, q, height)
      ensures LevelOk(iBatch, height) && iBatch < 15 && batch in busy
    {
      hide Planned, Covers, NodesIn, Apply, KeysOf, Near, At, Writable, Placed;
      WritableShort(kv, m, height);
      WritablePlaced(kv, m, height);
      CoversNode(hash, universe, Apply(m, kv), height);
      PlannedShape(root, m0, m, kv, height, batch, busy, gone);
      AtShape(root, m0, height, q, batch, iBatch, busy);
      ApplyKeys(m, kv);
      NearPart(m0.Keys, KeysOf(kv), Apply(m, kv).Keys, q, height);
    }

    lemma AtShape(root: Ref, m0: Map, height: nat, q: Key, batch: array<Slot>, iBatch: nat, busy: set<array<Slot>>)
      requires At(updatedNodes, root, m0, height, q, batch, iBatch, busy)
      ensures LevelOk(iBatch, height) && iBatch < 15 && batch in busy && batch.Length == 31 && height <= BITS
      ensures Near(m0.Keys, q, height)
    {
    }

    /** The writes of each side. */
    method UpdateSides(lnode: Slot, rnode: Slot, lkv: seq<KV>, rkv: seq<KV>, batch: array<Slot>, iBatch: nat,
            height: nat, ghost kv: seq<KV>, ghost m: Map, ghost q: Key, ghost busy: set<array<Slot>>)
      returns (left: Slot, right: Slot, deleted: bool, ghost s1: Nodes, ghost ql: Key, ghost qr: Key)
      requires 0 < height <= BITS && LevelOk(iBatch, height) && batch.Length == 31
      requires lnode == batch[2 * iBatch + 1] && rnode == batch[2 * iBatch + 2]
      requires SidesIn(batch[..], iBatch, m, height) && ChildrenAre(lnode, rnode, m, height)
      requires Fine(busy) && batch in busy
      requires lkv == Going(kv, BITS - height, false) && rkv == Going(kv, BITS - height, true)
      requires Writable(kv, m, height) && Near(KeysOf(kv), q, height) && (|m| >= 2 || |kv| == 2)
      requires Covers(hash, universe, Apply(m, kv), height)
      requires Has(Half(m, BITS - height, false), height - 1, {}, busy)
        && Has(Half(m, BITS - height, true), height - 1, {}, busy)
      modifies this`updatedNodes, this`repr, repr
      ensures Fine(busy) && old(repr) <= repr && fresh(repr - old(repr))
      ensures ChildrenAre(left, right, Apply(m, kv), height) && SidesIn(batch[..], iBatch, Apply(m, kv), height)
      ensures SidesAfter(old(updatedNodes), s1, m, kv, height, q, ql, qr, busy)
      ensures deleted || |Apply(m, kv)| >= 2
      ensures unchanged(busy - {batch})
      ensures Outside(old(batch[..]), batch[..], iBatch)
      decreases height, 0
    {
      hide NodesIn, Half, Apply, Writable, Covers, KeysOf, SubOk, NodeOf, Going, Fine, Agree, Held, Kept, Near,
        GoneBelow, SideReady, SidesAfter, SidesIn, Outside, BitIsSet, SameBits, Less, InKeyOrder, Due, Sound,
        ChildrenAre;
      ghost var d, m' := BITS - height, Apply(m, kv);
      ghost var l0, r0, l1, r1, s0 := Half(m, d, false), Half(m, d, true), Half(m', d, false), Half(m', d, true),
              updatedNodes;
      FineCore(busy);
      ql, qr := if lkv != [] then lkv[0].k else q, if rkv != [] then rkv[0].k else q;
      SidesDue(kv, m, height, q, lkv, rkv, ql, qr);
      var ldel, rdel;
      ghost var b0 := batch[..];
      SidesUse(b0, iBatch, m, height, busy);
      left, ldel := UpdateSide(lnode, lkv, batch, 2 * iBatch + 1, height - 1, l0, ql, busy);
      s1 := updatedNodes;
      ghost var b1 := batch[..];
      LeftDone(s0, s1, b0, b1, iBatch, lkv, m, height, busy);
      right, rdel := UpdateSide(rnode, rkv, batch, 2 * iBatch + 2, height - 1, r0, qr, busy);
      SidesDone(s0, s1, b0, b1, batch[..], iBatch, m, kv, height, q, ql, qr, lkv, rkv, l1, r1, left, right, busy);
      deleted := ldel || rdel;
      if !deleted {
        TwoRemain(m, m', kv, lkv, rkv, d);
      }
    }

    /** Both sides are ready. */
    lemma SidesUse(batch: Batch, i: nat, m: Map, height: nat, busy: set<array<Slot>>)
      requires 0 < height <= BITS && LevelOk(i, height) && SidesIn(batch, i, m, height)
      requires ChildrenAre(batch[2 * i + 1], batch[2 * i + 2], m, height)
      requires Has(Half(m, BITS - height, false), height - 1, {}, busy)
      requires Has(Half(m, BITS - height, true), height - 1, {}, busy)
      ensures SideReady(updatedNodes, batch, 2 * i + 1, Half(m, BITS - height, false), height - 1, busy)
      ensures SideReady(updatedNodes, batch, 2 * i + 2, Half(m, BITS - height, true), height - 1, busy)
      ensures (height - 1) % 4 == 0 ==> i >= 7
      ensures batch[2 * i + 1] == NodeOf(hash, Half(m, BITS - height, false), height - 1)
      ensures batch[2 * i + 2] == NodeOf(hash, Half(m, BITS - height, true), height - 1)
    {
      hide NodesIn, Half, SubOk, NodeOf, Held, Agree;
    }

    /** The left side is done: the right one is ready as before. */
    lemma LeftDone(s0: Nodes, s1: Nodes, b0: Batch, b1: Batch, i: nat, lkv: seq<KV>, m: Map, height: nat,
            busy: set<array<Slot>>)
      requires 0 < height <= BITS && i < 15 && Outside(b0, b1, 2 * i + 1) && CollisionFree(hash, universe)
      requires SideReady(s0, b0, 2 * i + 2, Half(m, BITS - height, true), height - 1, busy)
      requires if lkv == [] then s1 == s0
               else Kept(hash, universe, s0, s1, busy, lkv[0].k, height - 1) && !BitIsSet(lkv[0].k, BITS - height)
      ensures SideReady(s1, b1, 2 * i + 2, Half(m, BITS - height, true), height - 1, busy)
      ensures b1[2 * i + 2] == b0[2 * i + 2]
    {
      hide NodesIn, Half, SubOk, NodeOf, Held, Agree, Kept, Outside, BitIsSet, CollisionFree;
      OtherSide(hash, b0, b1, i, 2 * i + 1, Half(m, BITS - height, true), height - 1);
      if lkv != [] { StillHeld(s0, s1, lkv, m, false, height, busy, {}); }
    }

    /** Both sides are done. */
    lemma SidesDone(s0: Nodes, s1: Nodes, b0: Batch, b1: Batch, b2: Batch, i: nat, m: Map, kv: seq<KV>, height: nat,
            q: Key, ql: Key, qr: Key, l: seq<KV>, r: seq<KV>, l1: Map, r1: Map, left: Slot, right: Slot,
            busy: set<array<Slot>>)
      requires 0 < height <= BITS && i < 15 && CollisionFree(hash, universe)
      requires Outside(b0, b1, 2 * i + 1) && Outside(b1, b2, 2 * i + 2)
      requires l == Going(kv, BITS - height, false) && r == Going(kv, BITS - height, true)
      requires l1 == Half(Apply(m, kv), BITS - height, false) && r1 == Half(Apply(m, kv), BITS - height, true)
      requires Sound(l1, height - 1) && SubOk(hash, b1, 2 * i + 1, l1, height - 1)
      requires Sound(r1, height - 1) && SubOk(hash, b2, 2 * i + 2, r1, height - 1)
      requires Kept(hash, universe, s0, s1, busy, ql, height - 1)
      requires Kept(hash, universe, s1, updatedNodes, busy, qr, height - 1)
      requires Held(hash, s1, committed.Keys, busy, l1, height - 1,
                 GoneBelow(hash, Half(m, BITS - height, false), l, height - 1))
      requires Has(r1, height - 1, GoneBelow(hash, Half(m, BITS - height, true), r, height - 1), busy)
      requires forall x :: x in GoneBelow(hash, Half(m, BITS - height, false), l, height - 1) ==> x !in s1
      requires forall x :: x in GoneBelow(hash, Half(m, BITS - height, true), r, height - 1) ==> x !in updatedNodes
      requires l == [] || r == [] || m == map[]
      requires SameBits(ql, q, BITS - height) && SameBits(qr, q, BITS - height)
      requires if r == [] then updatedNodes == s1 else qr == r[0].k && BitIsSet(r[0].k, BITS - height)
      requires left == NodeOf(hash, l1, height - 1) && right == NodeOf(hash, r1, height - 1)
      ensures ChildrenAre(left, right, Apply(m, kv), height)
      ensures SidesAfter(s0, s1, m, kv, height, q, ql, qr, busy)
      ensures SidesIn(b2, i, Apply(m, kv), height) && Outside(b0, b2, i)
    {
      hide NodesIn, Half, SubOk, Held, Agree, Kept, Outside, BitIsSet, SameBits, CollisionFree, Apply, Going, GoneBelow;
      OtherSide(hash, b1, b2, i, 2 * i + 2, l1, height - 1);
      OutsideBoth(b0, b1, b2, i);
      if r != [] {
        StillHeld(s1, updatedNodes, r, Apply(m, kv), true, height, busy,
          GoneBelow(hash, Half(m, BITS - height, false), l, height - 1));
      }
    }

    /** What each side has to do. */
    lemma SidesDue(kv: seq<KV>, m: Map, height: nat, q: Key, l: seq<KV>, r: seq<KV>, ql: Key, qr: Key)
      requires 0 < height <= BITS && Writable(kv, m, height) && Near(KeysOf(kv), q, height)
      requires Covers(hash, universe, Apply(m, kv), height)
      requires l == Going(kv, BITS - height, false) && r == Going(kv, BITS - height, true)
      requires ql == (if l != [] then l[0].k else q) && qr == (if r != [] then r[0].k else q)
      ensures Due(l, Half(m, BITS - height, false), height - 1, ql)
        && Due(r, Half(m, BITS - height, true), height - 1, qr)
      ensures Half(Apply(m, kv), BITS - height, false) == Apply(Half(m, BITS - height, false), l)
      ensures Half(Apply(m, kv), BITS - height, true) == Apply(Half(m, BITS - height, true), r)
      ensures Sound(Half(Apply(m, kv), BITS - height, false), height - 1)
      ensures Sound(Half(Apply(m, kv), BITS - height, true), height - 1)
      ensures |l| + |r| == |kv| && (l == [] || r == [] || m == map[])
      ensures l != [] ==> !BitIsSet(l[0].k, BITS - height)
      ensures r != [] ==> BitIsSet(r[0].k, BITS - height)
      ensures SameBits(ql, q, BITS - height) && SameBits(qr, q, BITS - height)
    {
      hide NodesIn, Half, Apply, Writable, Covers, KeysOf, Going, Agree, Near, BitIsSet, SameBits, Sound;
      EndsSides(kv, m, height);
      SplitFacts(kv, m, height);
      SidesSplit(kv, height, q);
    }

    lemma EndsSides(kv: seq<KV>, m: Map, height: nat)
      requires 0 < height && Writable(kv, m, height) && Covers(hash, universe, Apply(m, kv), height)
      ensures var d, m' := BITS - height, Apply(m, kv);
              && Sound(Half(m', d, false), height - 1) && Sound(Half(m', d, true), height - 1)
              && Covers(hash, universe, Half(m', d, false), height - 1)
              && Covers(hash, universe, Half(m', d, true), height - 1)
              && (|kv| == 2 ==> m == map[]) && 1 <= |kv| <= 2 && height <= BITS
    {
      var m' := Apply(m, kv);
      WritablePlaced(kv, m, height);
      CoversNode(hash, universe, m', height);
      CoversNode(hash, universe, Half(m', BITS - height, false), height - 1);
      CoversNode(hash, universe, Half(m', BITS - height, true), height - 1);
      PlacedHalf(m', height, false);
      PlacedHalf(m', height, true);
      hide Covers, Apply, NodesIn, Agree, Half, KeysOf, Less;
    }

    /** Work on one side leaves the other. */
    lemma StillHeld(was: Nodes, now: Nodes, kv: seq<KV>, whole: Map, side: bool, height: nat, busy: set<array<Slot>>,
            missing: set<Digest>)
      requires CollisionFree(hash, universe) && 0 < height <= BITS && kv != []
      requires BitIsSet(kv[0].k, BITS - height) == side && Kept(hash, universe, was, now, busy, kv[0].k, height - 1)
      requires var other := Half(whole, BITS - height, !side);
               Sound(other, height - 1) && Held(hash, was, committed.Keys, busy, other, height - 1, missing)
      ensures Held(hash, now, committed.Keys, busy, Half(whole, BITS - height, !side), height - 1, missing)
    {
      hide NodesIn, CollisionFree, Agree, Held, Kept, BitIsSet;
      var other := Half(whole, BITS - height, !side);
      forall k | k in other ensures !SameBits(k, kv[0].k, BITS - (height - 1)) {
        assert BitIsSet(k, BITS - height) != BitIsSet(kv[0].k, BITS - height);
      }
      hide Half, SameBits;
      KeptHeld(hash, universe, was, now, busy, kv[0].k, height - 1, committed.Keys, other, height - 1, missing);
    }

    /** When both sides are done, the node itself can be finished. */
    lemma BothDone(s0: Nodes, s1: Nodes, root: Ref, m0: Map, m: Map, kv: seq<KV>, height: nat, q: Key, ql: Key, qr: Key,
            batch: array<Slot>, iBatch: nat, busy: set<array<Slot>>, gone: set<Digest>)
      requires 0 < height <= BITS && Fine(busy) && At(s0, root, m0, height, q, batch, iBatch, busy)
      requires Planned(s0, root, m0, m, kv, height, batch, busy, gone) && Writable(kv, m, height)
      requires SidesAfter(s0, s1, m, kv, height, q, ql, qr, busy)
      ensures May(root, m0, Apply(m, kv), height, batch, busy, gone)
      ensures At(updatedNodes, root, m0, height, q, batch, iBatch, busy)
      ensures Has(Half(Apply(m, kv), BITS - height, false), height - 1, gone, busy)
      ensures Has(Half(Apply(m, kv), BITS - height, true), height - 1, gone, busy)
      ensures Kept(hash, universe, s0, updatedNodes, Done(busy, batch, height), q, height)
    {
      hide Fine, NodesIn, Agree, Held, Kept, Half, GoneOk, Apply, Planned, Names, Owned, DigestOf, May, KeysOf, Near,
        SidesAfter;
      PlannedGone(s0, root, m0, m, kv, height, batch, busy, gone);
      FineParts(busy);
      BothHeld(s0, s1, m, kv, height, q, ql, qr, batch, busy, gone);
      BothAway(s0, s1, m, kv, height, q, ql, qr, busy);
      if height % 4 == 0 {
        BothOwned(s0, s1, root, m, kv, height, q, ql, qr, batch, busy);
      }
      if |m0| > 0 && (height < BITS || |m0| >= 2) {
        BothUntouched(s0, s1, m0, m, kv, height, q, ql, qr, busy);
      }
      SidesMay(s0, root, m0, m, kv, height, batch, busy, gone);
    }

    lemma BothHeld(s0: Nodes, s1: Nodes, m: Map, kv: seq<KV>, height: nat, q: Key, ql: Key, qr: Key,
            batch: array<Slot>, busy: set<array<Slot>>, gone: set<Digest>)
      requires 0 < height <= BITS && SidesAfter(s0, s1, m, kv, height, q, ql, qr, busy)
      requires |m| != 1 && Writable(kv, m, height) && GoneBelow(hash, m, kv, height) <= gone
      ensures Has(Half(Apply(m, kv), BITS - height, false), height - 1, gone, busy)
      ensures Has(Half(Apply(m, kv), BITS - height, true), height - 1, gone, busy)
      ensures Kept(hash, universe, s0, updatedNodes, Done(busy, batch, height), q, height)
    {
      hide Held, Kept, Half, Going, GoneBelow, Apply, SameBits, KeysOf, Agree;
      var d, out := BITS - height, Done(busy, batch, height);
      GoneSides(hash, m, kv, height);
      HeldMore(hash, updatedNodes, committed.Keys, busy, Half(Apply(m, kv), d, false), height - 1,
        GoneBelow(hash, Half(m, d, false), Going(kv, d, false), height - 1), gone);
      HeldMore(hash, updatedNodes, committed.Keys, busy, Half(Apply(m, kv), d, true), height - 1,
        GoneBelow(hash, Half(m, d, true), Going(kv, d, true), height - 1), gone);
      KeptUp(hash, universe, s0, s1, busy, ql, height - 1, out, q, height);
      KeptUp(hash, universe, s1, updatedNodes, busy, qr, height - 1, out, q, height);
      KeptTwice(hash, universe, s0, s1, updatedNodes, out, q, height);
    }

    lemma BothAway(s0: Nodes, s1: Nodes, m: Map, kv: seq<KV>, height: nat, q: Key, ql: Key, qr: Key,
            busy: set<array<Slot>>)
      requires 0 < height <= BITS && SidesAfter(s0, s1, m, kv, height, q, ql, qr, busy)
      requires |m| != 1 && Writable(kv, m, height)
      ensures forall x :: x in GoneBelow(hash, m, kv, height) ==> x !in updatedNodes
    {
      hide Held, Kept, Half, Going, GoneBelow, Apply, SameBits, KeysOf, Agree;
      GoneSides(hash, m, kv, height);
      NoneOnEmptySide(m, kv, height);
    }

    lemma BothOwned(s0: Nodes, s1: Nodes, root: Ref, m: Map, kv: seq<KV>, height: nat, q: Key, ql: Key, qr: Key,
            batch: array<Slot>, busy: set<array<Slot>>)
      requires 0 < height <= BITS && SidesAfter(s0, s1, m, kv, height, q, ql, qr, busy)
      requires batch in busy && Owned(s0, batch, root)
      ensures Owned(updatedNodes, batch, root)
    {
      hide Held, Kept, Half, Going, GoneBelow, Apply, SameBits, Owned;
      OwnedStill(hash, universe, s0, s1, busy, ql, height - 1, batch, root);
      OwnedStill(hash, universe, s1, updatedNodes, busy, qr, height - 1, batch, root);
    }

    lemma BothUntouched(s0: Nodes, s1: Nodes, m0: Map, m: Map, kv: seq<KV>, height: nat, q: Key, ql: Key, qr: Key,
            busy: set<array<Slot>>)
      requires 0 < height <= BITS && SidesAfter(s0, s1, m, kv, height, q, ql, qr, busy)
      requires CollisionFree(hash, universe) && Sound(m0, height) && |m0| > 0 && (height < BITS || |m0| >= 2)
      ensures var d := DigestOf(hash, m0, height);
              (d in s0 <==> d in updatedNodes) && (d in s0 ==> updatedNodes[d] == s0[d])
    {
      hide Held, Kept, Half, Going, GoneBelow, Apply, SameBits, CollisionFree, NodesIn, Agree, DigestOf;
      Untouched(hash, universe, s0, s1, updatedNodes, busy, ql, qr, m0, height);
    }

    lemma PlannedGone(un: Nodes, root: Ref, m0: Map, m: Map, kv: seq<KV>, height: nat, batch: array<Slot>,
            busy: set<array<Slot>>, gone: set<Digest>)
      requires height <= BITS && Planned(un, root, m0, m, kv, height, batch, busy, gone)
      ensures GoneBelow(hash, m, kv, height) <= gone && (m == m0 || (|m0| == 1 && m == map[])) && |m| != 1
    {
    }

    lemma NoneOnEmptySide(m: Map, kv: seq<KV>, height: nat)
      requires 0 < height <= BITS
      ensures var d := BITS - height; var l, r := Going(kv, d, false), Going(kv, d, true);
              && (l == [] || m == map[] ==> GoneBelow(hash, Half(m, d, false), l, height - 1) == {})
              && (r == [] || m == map[] ==> GoneBelow(hash, Half(m, d, true), r, height - 1) == {})
    {
      var d := BITS - height;
      if m == map[] {
        assert Half(m, d, false) == map[] && Half(m, d, true) == map[];
        NoneGone(hash, map[], Going(kv, d, false), height - 1);
        NoneGone(hash, map[], Going(kv, d, true), height - 1);
      }
    }

    lemma SidesMay(s0: Nodes, root: Ref, m0: Map, m: Map, kv: seq<KV>, height: nat, batch: array<Slot>,
            busy: set<array<Slot>>, gone: set<Digest>)
      requires height <= BITS && Names(hash, root, m0, height)
      requires Planned(s0, root, m0, m, kv, height, batch, busy, gone)
      requires forall x :: x in GoneBelow(hash, m, kv, height) ==> x !in updatedNodes
      requires |m0| > 0 && (height < BITS || |m0| >= 2) ==>
                 var d := DigestOf(hash, m0, height);
                 (d in s0 <==> d in updatedNodes) && (d in s0 ==> updatedNodes[d] == s0[d])
      ensures May(root, m0, Apply(m, kv), height, batch, busy, gone)
    {
      hide GoneBelow, GoneOk, Apply, DigestOf;
    }

    lemma EmptySound(height: nat)
      requires height <= BITS
      ensures Sound(map[], height)
    {
    }

    // -------------------------------------------------------------- the whole trie

    /** `Update` for one key: None deletes it.  Nothing is lost that was not committed, except what `Lost` says. */
    method UpdateKey(key: Key, value: Option<Value>)
      requires Valid() && Intact() && Covers(hash, universe, ApplyOne(contents, KV(key, value)), BITS)
      modifies this`updatedNodes, this`repr, this`Root, this`contents, repr
      ensures Valid() && fresh(repr - old(repr))
      ensures Wrote(old(contents), contents, key, value)
      ensures Has(contents, BITS, Lost(hash, old(contents), KV(key, value)), {})
      ensures forall d :: d in Lost(hash, old(contents), KV(key, value)) ==> d !in updatedNodes
      ensures Intact() <==> Lost(hash, old(contents), KV(key, value)) <= committed.Keys
    {
      hide NodesIn, CollisionFree, Covers, Apply, SubOk, Agree, KeysOf, Fine, Held, After, Gone, Lost, Near, InSlot,
        InBatch, Ready, Sound, NodeOf, RootOf, Outside, DigestOf, ApplyOne, Writable, Wrote;
      ghost var w, m, was := KV(key, value), contents, updatedNodes;
      ghost var m' := ApplyOne(m, w);
      var root := if Root.Some? then Bare(Root.value) else Absent;
      TopReady(root);
      TopWritable(m, w);
      var update, deleted := Update(root, [KV(key, value)], null, 0, BITS, m, {});
      contents := m';
      if update.Node? {
        Root := Some(update.digest);
      } else {
        Root := None;
      }
      TopEnds(was, root, update, m, key, value);
    }

    /** The root, the map and the losses after an update of the whole trie. */
    lemma TopEnds(was: Nodes, root: Ref, update: Slot, m: Map, key: Key, value: Option<Value>)
      requires contents == ApplyOne(m, KV(key, value)) && Covers(hash, universe, contents, BITS)
      requires Fine({}) && CollisionFree(hash, universe) && Sound(m, BITS)
      requires root == if |m| == 0 then Absent else Bare(DigestOf(hash, m, BITS))
      requires After(was, contents, BITS, key, Gone(hash, root, m, [KV(key, value)], BITS), {})
      requires update == NodeOf(hash, contents, BITS) && Root == if update.Node? then Some(update.digest) else None
      ensures Valid() && Wrote(m, contents, key, value)
      ensures Has(contents, BITS, Lost(hash, m, KV(key, value)), {})
      ensures forall d :: d in Lost(hash, m, KV(key, value)) ==> d !in updatedNodes
      ensures Intact() <==> Lost(hash, m, KV(key, value)) <= committed.Keys
    {
      hide NodesIn, CollisionFree, Covers, Fine, After, Gone, Lost, Sound, NodeOf, RootOf, DigestOf, ApplyOne, Wrote,
        Held;
      EndsSoundAtTop(contents);
      TopRoot(update, contents);
      Missing(was, root, m, KV(key, value));
      OneWritten(m, key, value);
    }

    /** What is hashed for the root, where l and r are the entries whose key starts with a clear and with a set bit. */
    lemma RootBytes(l: Map, r: Map)
      requires Valid() && contents == l + r
      requires (forall k :: k in l ==> k[0] < 128) && (forall k :: k in r ==> k[0] >= 128)
      ensures contents == map[] ==> Root == None
      ensures |contents| == 1 ==> forall k :: k in contents ==> Root == Some(hash([k, contents[k], [0]]))
      ensures |contents| >= 2 ==> Root == Some(hash([Child(RootOf(hash, l, 255)), Child(RootOf(hash, r, 255))]))
    {
      hide Fine, RootOf, Child;
      AgreeAtTop(contents.Keys);
      forall k: Key ensures BitOf(k, 0) <==> k[0] >= 128 {
        TopBit(k);
      }
      RootLaw(hash, contents, l, r, BITS);
    }

    lemma TopReady(root: Ref)
      requires Valid() && Intact() && root == if Root.Some? then Bare(Root.value) else Absent
      ensures Ready(root, contents, BITS, {}) && Fine({}) && CollisionFree(hash, universe) && Sound(contents, BITS)
      ensures root == if |contents| == 0 then Absent else Bare(DigestOf(hash, contents, BITS))
    {
    }

    lemma TopRoot(update: Slot, m: Map)
      requires update == NodeOf(hash, m, BITS)
      ensures RootOf(hash, m, BITS) == if update.Node? then Some(update.digest) else None
    {
    }

    lemma EndsSoundAtTop(m: Map)
      requires Covers(hash, universe, m, BITS)
      ensures Sound(m, BITS)
    {
      CoversNode(hash, universe, m, BITS);
      AgreeAtTop(m.Keys);
      hide Covers, NodesIn, Agree;
    }

    /** What goes and is needed is lost unless it is committed. */
    lemma Missing(was: Nodes, root: Ref, m: Map, w: KV)
      requires CollisionFree(hash, universe) && Sound(m, BITS) && Sound(ApplyOne(m, w), BITS)
      requires root == if |m| == 0 then Absent else Bare(DigestOf(hash, m, BITS))
      requires After(was, ApplyOne(m, w), BITS, w.k, Gone(hash, root, m, [w], BITS), {})
      ensures Has(ApplyOne(m, w), BITS, Lost(hash, m, w), {})
      ensures forall d :: d in Lost(hash, m, w) ==> d !in updatedNodes
      ensures Has(ApplyOne(m, w), BITS, {}, {}) <==> Lost(hash, m, w) <= committed.Keys
    {
      hide NodesIn, CollisionFree, Agree, Kept, Needs, Gone, Lost, DigestOf, ApplyOne;
      var m', gone := ApplyOne(m, w), Gone(hash, root, m, [w], BITS);
      forall d ensures d in gone && Needs(hash, m', BITS, d) <==> d in Lost(hash, m, w) {
        LostExactly(hash, universe, root, m, w, d);
      }
    }

    /** `Commit`: the updated nodes go to the store, and start anew. */
    method Commit()
      requires Valid()
      modifies this`updatedNodes, this`committed
      ensures Valid() && updatedNodes == map[] && committed.Keys == old(committed.Keys + updatedNodes.Keys)
      ensures Intact() <==> old(Intact())
    {
      hide Sound, CollisionFree, Right, SavedRight, Held, RootOf, SavedWith;
      ghost var saved := committed;
      Lengths({});
      SaveNodes();
      AllSaved(saved);
      updatedNodes := map[];
    }

    /** `s.db.commit` */
    method SaveNodes()
      requires forall d :: d in updatedNodes ==> updatedNodes[d].Length == 31
      modifies this`committed
      ensures committed == SavedWith(old(committed), updatedNodes, updatedNodes.Keys - {})
    {
      hide SavedWith;
      ghost var saved := committed;
      SavedFirst(saved, updatedNodes);
      var rest := updatedNodes.Keys;
      while rest != {}
        invariant rest <= updatedNodes.Keys
        invariant committed == SavedWith(saved, updatedNodes, updatedNodes.Keys - rest)
        decreases |rest|
      {
        var key :| key in rest;
        SavedNext(saved, updatedNodes, rest, key);
        committed := committed[key := updatedNodes[key][..]];
        rest := rest - {key};
      }
    }

    lemma AllSaved(saved: Store)
      requires Right(hash, universe, updatedNodes, repr, {}) && SavedRight(hash, universe, saved)
      requires committed == SavedWith(saved, updatedNodes, updatedNodes.Keys - {})
      ensures SavedRight(hash, universe, committed) && committed.Keys == saved.Keys + updatedNodes.Keys
      ensures Right(hash, universe, map[], repr, {})
      ensures Held(hash, map[], committed.Keys, {}, contents, BITS, {}) <==>
              Held(hash, updatedNodes, saved.Keys, {}, contents, BITS, {})
    {
      hide NodesIn, Agree, BatchOk, DigestOf, Needs;
      assert updatedNodes.Keys - {} == updatedNodes.Keys;
    }

    // -------------------------------------------------------------- reading

    /** All batches that can be loaded. */
    ghost function Keys(): set<Digest>
      reads this`updatedNodes, this`committed
    {
      updatedNodes.Keys + committed.Keys
    }

    /** `Get`: unavailable exactly when a batch on the way of the key is missing. */
    method Get(key: Key) returns (value: Outcome<Option<Value>>)
      requires Valid()
      ensures value == if OnWayIn(hash, Keys(), contents, key, BITS)
                       then Known(if key in contents then Some(contents[key]) else None)
                       else Unavailable
    {
      hide NodesIn, CollisionFree, Preimage, Agree, Right, SavedRight;
      value := GetFrom(if Root.Some? then Bare(Root.value) else Absent, key, null, 0, BITS, contents);
    }

    /** `get` below a node. */
    method GetFrom(root: Ref, key: Key, batch0: array?<Slot>, iBatch0: nat, height: nat, ghost m: Map)
      returns (value: Outcome<Option<Value>>)
      requires height <= BITS && (height % 4 != 0 ==> batch0 != null && InSlot(batch0, iBatch0, m, height))
      requires Fine({}) && Sound(m, height) && Names(hash, root, m, height)
      ensures value == if OnWayIn(hash, Keys(), m, key, height) then Known(if key in m then Some(m[key]) else None)
                       else Unavailable
      decreases height
    {
      hide NodesIn, Agree, InSlot, BitIsSet, Half, Fine, Names, OnWayIn, DigestOf, ChildrenAre;
      WayDown(hash, Keys(), m, key, height);
      NoRoot(root, m, height);
      if root == Absent {
        return Known(None);
      }
      var batch, iBatch, lnode, rnode, isShortcut := ReadChildren(root, height, iBatch0, batch0, m);
      if batch == null {
        return Unavailable;
      }
      if isShortcut {
        LeafHas(m, key);
        return Known(if lnode.bytes == key then Some(rnode.bytes) else None);
      }
      SideHas(m, BITS - height, key);
      if BitIsSet(key, BITS - height) {
        value := GetFrom(RefOf(rnode), key, batch, 2 * iBatch + 2, height - 1, Half(m, BITS - height, true));
      } else {
        value := GetFrom(RefOf(lnode), key, batch, 2 * iBatch + 1, height - 1, Half(m, BITS - height, false));
      }
    }

    /** `loadChildren` as a reader uses it. */
    method ReadChildren(root: Ref, height: nat, iBatch0: nat, batch0: array?<Slot>, ghost m: Map)
      returns (batch: array?<Slot>, iBatch: nat, lnode: Slot, rnode: Slot, isShortcut: bool)
      requires height <= BITS && (height % 4 != 0 ==> batch0 != null && InSlot(batch0, iBatch0, m, height))
      requires Fine({}) && Sound(m, height) && Names(hash, root, m, height) && |m| > 0
      ensures batch == null <==> height % 4 == 0 && DigestOf(hash, m, height) !in Keys()
      ensures batch != null ==> (isShortcut <==> |m| == 1)
      ensures batch != null && |m| == 1 ==> lnode == Data(TheKey(m)) && rnode == Data(m[TheKey(m)])
      ensures batch != null && |m| >= 2 ==> height > 0
      ensures batch != null && |m| >= 2 ==>
                && Sound(Half(m, BITS - height, false), height - 1) && Sound(Half(m, BITS - height, true), height - 1)
                && Names(hash, RefOf(lnode), Half(m, BITS - height, false), height - 1)
                && Names(hash, RefOf(rnode), Half(m, BITS - height, true), height - 1)
                && ChildrenAre(lnode, rnode, m, height)
      ensures batch != null && |m| >= 2 && (height - 1) % 4 != 0 ==>
                && InSlot(batch, 2 * iBatch + 1, Half(m, BITS - height, false), height - 1)
                && InSlot(batch, 2 * iBatch + 2, Half(m, BITS - height, true), height - 1)
    {
      hide NodesIn, Agree, SubOk, Half, Fine, Names, DigestOf, NodeOf, ChildrenAre;
      batch, iBatch, lnode, rnode, isShortcut := LoadChildren(root, height, iBatch0, batch0, m, {});
      if batch != null {
        if |m| == 1 {
          OneLeaf(hash, m, height);
        } else {
          InteriorAbove(m, height);
          ChildrenReady(batch[..], iBatch, m, height);
          ChildrenNamed(batch, iBatch, m, height);
        }
      }
    }

    lemma NoRoot(root: Ref, m: Map, height: nat)
      requires height <= BITS && Names(hash, root, m, height)
      ensures root == Absent <==> |m| == 0
    {
    }

    /** The two children under their names. */
    lemma ChildrenNamed(batch: array<Slot>, i: nat, m: Map, height: nat)
      requires 0 < height <= BITS && batch.Length == 31 && i < 15
      requires ChildrenAre(batch[2 * i + 1], batch[2 * i + 2], m, height)
      requires InBatch(batch, 2 * i + 1, Half(m, BITS - height, false), height - 1)
      requires InBatch(batch, 2 * i + 2, Half(m, BITS - height, true), height - 1)
      requires (height - 1) % 4 != 0 ==> LevelOk(2 * i + 1, height - 1) && LevelOk(2 * i + 2, height - 1)
      ensures Names(hash, RefOf(batch[2 * i + 1]), Half(m, BITS - height, false), height - 1)
      ensures Names(hash, RefOf(batch[2 * i + 2]), Half(m, BITS - height, true), height - 1)
      ensures (height - 1) % 4 != 0 ==> InSlot(batch, 2 * i + 1, Half(m, BITS - height, false), height - 1)
      ensures (height - 1) % 4 != 0 ==> InSlot(batch, 2 * i + 2, Half(m, BITS - height, true), height - 1)
    {
      hide SubOk, Half, Preimage;
    }

    /** `MerkleProof`: unavailable exactly when a batch on the way of the key is missing. */
    method MerkleProof(key: Key) returns (p: Outcome<Proof>)
      requires Valid()
      ensures p == if OnWayIn(hash, Keys(), contents, key, BITS) then Known(ProofOf(hash, contents, key, BITS))
                   else Unavailable
    {
      hide NodesIn, CollisionFree, Preimage, Agree, Right, SavedRight;
      p := ProofFrom(if Root.Some? then Bare(Root.value) else Absent, key, null, BITS, 0, contents);
    }

    /** `merkleProof` below a node. */
    method ProofFrom(root: Ref, key: Key, batch0: array?<Slot>, height: nat, iBatch0: nat, ghost m: Map)
      returns (p: Outcome<Proof>)
      requires height <= BITS && (height % 4 != 0 ==> batch0 != null && InSlot(batch0, iBatch0, m, height))
      requires Fine({}) && Sound(m, height) && Names(hash, root, m, height)
      ensures p == if OnWayIn(hash, Keys(), m, key, height) then Known(ProofOf(hash, m, key, height)) else Unavailable
      decreases height
    {
      hide NodesIn, Agree, InSlot, BitIsSet, Half, ProofOf, Fine, Names, OnWayIn, DigestOf, Side, ChildrenAre;
      WayDown(hash, Keys(), m, key, height);
      NoRoot(root, m, height);
      ProofEnds(hash, m, key, height);
      if root == Absent {
        return Known(Proof([], false, None, None));
      }
      var batch, iBatch, lnode, rnode, isShortcut := ReadChildren(root, height, iBatch0, batch0, m);
      if batch == null {
        return Unavailable;
      }
      if isShortcut || height == 0 {
        if lnode.bytes == key {
          return Known(Proof([], true, None, Some(rnode.bytes)));
        }
        return Known(Proof([], false, Some(lnode.bytes), Some(rnode.bytes)));
      }
      ProofStep(hash, m, key, height);
      SideOfNode(lnode, rnode, m, height);
      if BitIsSet(key, BITS - height) {
        p := ProofFrom(RefOf(rnode), key, batch, height - 1, 2 * iBatch + 2, Half(m, BITS - height, true));
        if p.Known? {
          p := Known(p.value.(ap := p.value.ap + [SideBytes(lnode)]));
        }
      } else {
        p := ProofFrom(RefOf(lnode), key, batch, height - 1, 2 * iBatch + 1, Half(m, BITS - height, false));
        if p.Known? {
          p := Known(p.value.(ap := p.value.ap + [SideBytes(rnode)]));
        }
      }
    }

    /** `append(mp, node[:HashLength])` or `append(mp, DefaultLeaf)` */
    lemma SideOfNode(lnode: Slot, rnode: Slot, m: Map, h: nat)
      requires 0 < h <= BITS && ChildrenAre(lnode, rnode, m, h)
      ensures SideBytes(lnode) == Side(hash, Half(m, BITS - h, false), h - 1)
      ensures SideBytes(rnode) == Side(hash, Half(m, BITS - h, true), h - 1)
    {
    }

    lemma ProofEnds(hash: Hash, m: Map, key: Key, h: nat)
      requires Placed(m, h)
      ensures |m| == 0 ==> ProofOf(hash, m, key, h) == Proof([], false, None, None)
      ensures |m| == 1 ==>
                ProofOf(hash, m, key, h) == if TheKey(m) == key then Proof([], true, None, Some(m[key]))
                                            else Proof([], false, Some(TheKey(m)), Some(m[TheKey(m)]))
      ensures h == 0 ==> |m| <= 1
    {
      if h == 0 { OneAtBottom(m); }
    }

    lemma InteriorAbove(m: Map, h: nat)
      requires Placed(m, h) && |m| >= 2
      ensures h > 0
    {
      if h == 0 { OneAtBottom(m); }
    }

    /** Without the root's batch no way can be gone. */
    lemma RootMissing(key: Key)
      requires |contents| > 0 && DigestOf(hash, contents, BITS) !in Keys()
      ensures !OnWayIn(hash, Keys(), contents, key, BITS)
    {
    }

    /** With nothing missing every way can be gone. */
    lemma IntactReads(key: Key)
      requires Intact()
      ensures OnWayIn(hash, Keys(), contents, key, BITS)
    {
      HeldOnWay(hash, updatedNodes, committed.Keys, contents, key, BITS);
    }
  }

  /** Two tries with one collision-free hash have the same root exactly when they hold the same map, whatever their
      histories. */
  lemma RootsDecideMaps(a: Trie, b: Trie)
    requires a.Valid() && b.Valid() && a.hash == b.hash && a.universe == b.universe
    ensures a.Root == b.Root <==> a.contents == b.contents
  {
    hide NodesIn, CollisionFree, Preimage, Right, SavedRight, Agree;
    if a.Root == b.Root {
      if |a.contents| > 0 && |b.contents| > 0 {
        Unique(a.hash, a.universe, a.contents, BITS, b.contents, BITS);
      } else {
        assert a.contents == map[] && b.contents == map[];
      }
    }
  }

  /** Writing the same entry twice before a commit makes every key unavailable, for good: the second write stores the
      root's batch under its digest and then deletes it as the old root. */
  method WrittenTwice(hash: Hash, ghost universe: iset<seq<seq<Byte>>>, key: Key, value: Value)
    returns (trie: Trie, once: Outcome<Option<Value>>, twice: Outcome<Option<Value>>,
          committed: Outcome<Option<Value>>)
    requires CollisionFree(hash, universe) && Covers(hash, universe, map[key := value], BITS)
    ensures trie.contents == map[key := value] && once == Known(Some(value))
    ensures twice == Unavailable && committed == Unavailable
  {
    hide NodesIn, CollisionFree, Covers, Trie.Fine, Trie.Sound, Trie.Has, OnWayIn, RootOf, DigestOf;
    trie := new Trie(hash, universe);
    assert ApplyOne(map[], KV(key, Some(value))) == map[key := value];
    trie.UpdateKey(key, Some(value));
    assert Lost(hash, map[], KV(key, Some(value))) == {};
    trie.IntactReads(key);
    once := trie.Get(key);
    assert ApplyOne(map[key := value], KV(key, Some(value))) == map[key := value];
    trie.UpdateKey(key, Some(value));
    assert DigestOf(hash, trie.contents, BITS) in Lost(hash, map[key := value], KV(key, Some(value)));
    trie.RootMissing(key);
    twice := trie.Get(key);
    trie.Commit();
    trie.RootMissing(key);
    committed := trie.Get(key);
  }
}
