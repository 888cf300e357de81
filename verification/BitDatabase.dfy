/** The node database of smt-v2: the updated nodes, which the trie changes in place and deletes, before the committed
    ones.

    A batch is stored under the digest of its topmost node.  A subtree needs the batches of all its nodes at heights
    divisible by four.  Digests are collected here as sets, arrays as references; what the arrays hold is in `Right`.
 */
module BitDatabase {
  import opened Words
  import opened BitKeys
  import opened BitTreeModel

  type Nodes = map<Digest, array<Slot>>

  /** A root as it is handed around: nil, the 32 bytes of `s.Root`, or 33 bytes with the shortcut flag. */
  datatype Ref = Absent | Bare(digest: Digest) | Flagged(digest: Digest, shortcut: bool)

  function RefOf(node: Slot): Ref {
    if node.Node? then Flagged(node.digest, node.shortcut) else Absent
  }

  /** `copy(node[:], root)` */
  function Named(ref: Ref): Digest {
    if ref.Absent? then ZERO else ref.digest
  }

  ghost function DigestOf(hash: Hash, m: Map, h: nat): Digest
    requires |m| > 0 && h <= BITS
  {
    hash(Preimage(hash, m, h))
  }

  ghost predicate Names(hash: Hash, ref: Ref, m: Map, h: nat)
    requires h <= BITS
  {
    match ref
    case Absent => |m| == 0
    case Bare(d) => |m| > 0 && h == BITS && d == DigestOf(hash, m, h)
    case Flagged(d, s) => |m| > 0 && h < BITS && d == DigestOf(hash, m, h) && s == (|m| == 1)
  }

  ghost predicate Real(hash: Hash, U: iset<seq<seq<Byte>>>, m: Map, h: nat) {
    |m| > 0 && Placed(m, h) && NodesIn(hash, U, m, h)
  }

  /** Digests of subtrees are different for different maps, and for different heights unless it is a leaf. */
  lemma SameDigest(hash: Hash, U: iset<seq<seq<Byte>>>, m: Map, h: nat, s: Map, g: nat)
    requires CollisionFree(hash, U) && Real(hash, U, m, h) && Real(hash, U, s, g)
    requires DigestOf(hash, m, h) == DigestOf(hash, s, g)
    ensures m == s && (h == g || (|m| == 1 && {h, g} == {0, BITS}))
  {
    hide NodesIn, Preimage, Agree;
    Unique(hash, U, m, h, s, g);
    assert h % 256 == g % 256 && h != g ==> {h, g} == {0, BITS};
  }

  lemma NotZero(hash: Hash, U: iset<seq<seq<Byte>>>, m: Map, h: nat)
    requires CollisionFree(hash, U) && Real(hash, U, m, h)
    ensures DigestOf(hash, m, h) != ZERO
  {
    hide Preimage, Agree;
    OwnPreimage(hash, U, m, h);
  }

  // ---------------------------------------------------------------- the batches of a subtree

  /** d is the digest of a batch of the tree. */
  ghost predicate Needs(hash: Hash, m: Map, h: nat, d: Digest)
    requires h <= BITS
    decreases h, hash
  {
    && |m| > 0
    && ((h % 4 == 0 && d == DigestOf(hash, m, h))
        || (|m| >= 2 && h > 0
            && (Needs(hash, Half(m, BITS - h, false), h - 1, d) || Needs(hash, Half(m, BITS - h, true), h - 1, d))))
  }

  lemma {:induction false} NeedsReal(hash: Hash, U: iset<seq<seq<Byte>>>, m: Map, h: nat, d: Digest)
    returns (s: Map, g: nat)
    requires Placed(m, h) && NodesIn(hash, U, m, h) && Needs(hash, m, h, d)
    ensures Real(hash, U, s, g) && g <= h && g % 4 == 0 && s.Keys <= m.Keys && d == DigestOf(hash, s, g)
    ensures g == h ==> s == m
    ensures g < h ==> |m| >= 2
    decreases h
  {
    hide NodesIn, Preimage, Agree, BitIsSet;
    if h % 4 == 0 && d == DigestOf(hash, m, h) {
      s, g := m, h;
    } else {
      var right := Needs(hash, Half(m, BITS - h, true), h - 1, d);
      PlacedHalf(m, h, right);
      NodesInHalf(hash, U, m, h, right);
      s, g := NeedsReal(hash, U, Half(m, BITS - h, right), h - 1, d);
    }
  }

  /** Whether a digest can be loaded, and not as one of the arrays that are being worked on. */
  ghost predicate Loadable(un: Nodes, saved: set<Digest>, busy: set<array<Slot>>, d: Digest) {
    if d in un then un[d] !in busy else d in saved
  }

  /** The batches of the tree can be loaded, but for the missing ones. */
  ghost predicate Held(hash: Hash, un: Nodes, saved: set<Digest>, busy: set<array<Slot>>, m: Map, h: nat,
          missing: set<Digest>)
    requires h <= BITS
  {
    forall d :: Needs(hash, m, h, d) && d !in missing ==> Loadable(un, saved, busy, d)
  }

  lemma HeldHalves(hash: Hash, un: Nodes, saved: set<Digest>, busy: set<array<Slot>>, m: Map, h: nat,
          missing: set<Digest>)
    requires 0 < h <= BITS && |m| != 1 && Held(hash, un, saved, busy, m, h, missing)
    ensures Held(hash, un, saved, busy, Half(m, BITS - h, false), h - 1, missing)
    ensures Held(hash, un, saved, busy, Half(m, BITS - h, true), h - 1, missing)
  {
    hide Half, DigestOf;
    HalvesJoin(m, BITS - h);
  }

  /** Nothing is needed for an empty tree, and for a leaf away from the root of a batch. */
  lemma HeldNothing(hash: Hash, un: Nodes, saved: set<Digest>, busy: set<array<Slot>>, m: Map, h: nat,
          missing: set<Digest>)
    requires h <= BITS && (|m| == 0 || (|m| == 1 && h % 4 != 0))
    ensures Held(hash, un, saved, busy, m, h, missing)
  {
  }

  lemma HeldWhole(hash: Hash, un: Nodes, saved: set<Digest>, busy: set<array<Slot>>, m: Map, h: nat,
          missing: set<Digest>)
    requires 0 < h <= BITS && h % 4 != 0
    requires Held(hash, un, saved, busy, Half(m, BITS - h, false), h - 1, missing)
    requires Held(hash, un, saved, busy, Half(m, BITS - h, true), h - 1, missing)
    ensures Held(hash, un, saved, busy, m, h, missing)
  {
    hide Half, DigestOf;
  }

  lemma HeldMore(hash: Hash, un: Nodes, saved: set<Digest>, busy: set<array<Slot>>, m: Map, h: nat,
          missing: set<Digest>, more: set<Digest>)
    requires h <= BITS && Held(hash, un, saved, busy, m, h, missing) && missing <= more
    ensures Held(hash, un, saved, busy, m, h, more)
  {
  }

  /** The batches of the halves are not the one of the whole tree. */
  lemma HeldBelow(hash: Hash, U: iset<seq<seq<Byte>>>, un: Nodes, saved: set<Digest>, busy: set<array<Slot>>,
          batch: array<Slot>, m: Map, h: nat)
    requires CollisionFree(hash, U) && 0 < h && |m| != 1 && Placed(m, h) && NodesIn(hash, U, m, h)
    requires Held(hash, un, saved, busy, m, h, {})
    requires |m| > 0 ==> forall d :: d in un && un[d] == batch ==> d == DigestOf(hash, m, h)
    ensures Held(hash, un, saved, busy + {batch}, Half(m, BITS - h, false), h - 1, {})
    ensures Held(hash, un, saved, busy + {batch}, Half(m, BITS - h, true), h - 1, {})
  {
    hide Half, DigestOf, NodesIn, Agree;
    HalvesJoin(m, BITS - h);
    HeldHalves(hash, un, saved, busy, m, h, {});
    if |m| > 0 {
      var l, r, g := Half(m, BITS - h, false), Half(m, BITS - h, true), h - 1;
      forall d | Needs(hash, l, g, d) ensures d != DigestOf(hash, m, h) {
        NotOwn(hash, U, m, h, false, d);
      }
      forall d | Needs(hash, r, g, d) ensures d != DigestOf(hash, m, h) {
        NotOwn(hash, U, m, h, true, d);
      }
    }
  }

  lemma NotOwn(hash: Hash, U: iset<seq<seq<Byte>>>, m: Map, h: nat, right: bool, d: Digest)
    requires CollisionFree(hash, U) && 0 < h && |m| >= 2 && Placed(m, h) && NodesIn(hash, U, m, h)
    requires Needs(hash, Half(m, BITS - h, right), h - 1, d)
    ensures d != DigestOf(hash, m, h)
  {
    hide Half, DigestOf, NodesIn, Agree;
    PlacedHalf(m, h, right);
    NodesInHalf(hash, U, m, h, right);
    var s, g := NeedsReal(hash, U, Half(m, BITS - h, right), h - 1, d);
    if d == DigestOf(hash, m, h) {
      SameDigest(hash, U, m, h, s, g);
    }
  }

  // ---------------------------------------------------------------- what an update touches

  /** All keys continue the first bits of q down to height h. */
  ghost predicate Near(keys: set<Key>, q: Key, h: nat)
    requires h <= BITS
  {
    forall k :: k in keys ==> SameBits(k, q, BITS - h)
  }

  /** d is the digest of a subtree at height h or less with keys near q. */
  ghost predicate Inside(hash: Hash, U: iset<seq<seq<Byte>>>, d: Digest, q: Key, h: nat)
    requires h <= BITS
  {
    exists s: Map, g: nat :: Real(hash, U, s, g) && g <= h && Near(s.Keys, q, h) && d == DigestOf(hash, s, g)
  }

  lemma IsInside(hash: Hash, U: iset<seq<seq<Byte>>>, s: Map, g: nat, q: Key, h: nat)
    requires Real(hash, U, s, g) && g <= h <= BITS && Near(s.Keys, q, h)
    ensures Inside(hash, U, DigestOf(hash, s, g), q, h)
  {
  }

  lemma InsideUp(hash: Hash, U: iset<seq<seq<Byte>>>, d: Digest, q: Key, h: nat, q': Key, h': nat)
    requires h <= h' <= BITS && SameBits(q, q', BITS - h') && Inside(hash, U, d, q, h)
    ensures Inside(hash, U, d, q', h')
  {
    hide NodesIn, Agree, DigestOf;
    var s: Map, g: nat :| Real(hash, U, s, g) && g <= h && Near(s.Keys, q, h) && d == DigestOf(hash, s, g);
    IsInside(hash, U, s, g, q', h');
  }

  /** The batches of a tree with keys elsewhere are not inside. */
  lemma Apart(hash: Hash, U: iset<seq<seq<Byte>>>, m: Map, h: nat, d: Digest, q: Key, h': nat)
    requires CollisionFree(hash, U) && Placed(m, h) && NodesIn(hash, U, m, h) && Needs(hash, m, h, d) && h' <= BITS
    requires forall k :: k in m ==> !SameBits(k, q, BITS - h')
    ensures !Inside(hash, U, d, q, h')
  {
    hide NodesIn, Agree, DigestOf, SameBits, Needs;
    var s, g := NeedsReal(hash, U, m, h, d);
    if Inside(hash, U, d, q, h') {
      var s': Map, g': nat :| Real(hash, U, s', g') && g' <= h' && Near(s'.Keys, q, h') && d == DigestOf(hash, s', g');
      SameDigest(hash, U, s, g, s', g');
    }
  }

  /** The digest of a subtree below the top is not inside at a smaller height. */
  lemma Above(hash: Hash, U: iset<seq<seq<Byte>>>, m: Map, h: nat, q: Key, h': nat)
    requires CollisionFree(hash, U) && Real(hash, U, m, h) && h' < h && (h < BITS || |m| >= 2)
    ensures !Inside(hash, U, DigestOf(hash, m, h), q, h')
  {
    hide NodesIn, Agree, DigestOf, SameBits;
    var d := DigestOf(hash, m, h);
    if Inside(hash, U, d, q, h') {
      var s: Map, g: nat :| Real(hash, U, s, g) && g <= h' && Near(s.Keys, q, h') && d == DigestOf(hash, s, g);
      SameDigest(hash, U, m, h, s, g);
    }
  }

  /** Only digests inside come or go, and no array in use gets a new digest. */
  ghost predicate Kept(hash: Hash, U: iset<seq<seq<Byte>>>, was: Nodes, now: Nodes, busy: set<array<Slot>>, q: Key,
          h: nat)
    requires h <= BITS
  {
    && (forall d :: (d in was || d in now) && !Inside(hash, U, d, q, h) ==> d in was && d in now && now[d] == was[d])
    && (forall d :: d in now && now[d] in busy ==> d in was && now[d] == was[d])
  }

  lemma KeptSame(hash: Hash, U: iset<seq<seq<Byte>>>, un: Nodes, busy: set<array<Slot>>, q: Key, h: nat)
    requires h <= BITS
    ensures Kept(hash, U, un, un, busy, q, h)
  {
  }

  lemma KeptTwice(hash: Hash, U: iset<seq<seq<Byte>>>, a: Nodes, b: Nodes, c: Nodes, busy: set<array<Slot>>, q: Key,
          h: nat)
    requires h <= BITS && Kept(hash, U, a, b, busy, q, h) && Kept(hash, U, b, c, busy, q, h)
    ensures Kept(hash, U, a, c, busy, q, h)
  {
    hide Inside;
  }

  lemma KeptUp(hash: Hash, U: iset<seq<seq<Byte>>>, was: Nodes, now: Nodes, busy: set<array<Slot>>, q: Key, h: nat,
          fewer: set<array<Slot>>, q': Key, h': nat)
    requires h <= h' <= BITS && SameBits(q, q', BITS - h') && fewer <= busy && Kept(hash, U, was, now, busy, q, h)
    ensures Kept(hash, U, was, now, fewer, q', h')
  {
    hide Inside, SameBits;
    forall d | Inside(hash, U, d, q, h) ensures Inside(hash, U, d, q', h') {
      InsideUp(hash, U, d, q, h, q', h');
    }
  }

  /** Work elsewhere leaves the batches of a tree loadable. */
  lemma KeptHeld(hash: Hash, U: iset<seq<seq<Byte>>>, was: Nodes, now: Nodes, busy: set<array<Slot>>, q: Key, h: nat,
          saved: set<Digest>, m: Map, g: nat, missing: set<Digest>)
    requires CollisionFree(hash, U) && Placed(m, g) && NodesIn(hash, U, m, g) && h <= BITS
    requires Kept(hash, U, was, now, busy, q, h) && Held(hash, was, saved, busy, m, g, missing)
    requires forall k :: k in m ==> !SameBits(k, q, BITS - h)
    ensures Held(hash, now, saved, busy, m, g, missing)
  {
    hide Inside, SameBits, NodesIn, Agree, Needs;
    forall d | Needs(hash, m, g, d) && d !in missing ensures Loadable(now, saved, busy, d) {
      Apart(hash, U, m, g, d, q, h);
    }
  }

  // ---------------------------------------------------------------- storing and deleting

  /** `storeNode`: nothing when the root is the old one, flag included; otherwise store, then delete the old root. */
  function Put(un: Nodes, node: Ref, old': Ref, batch: array<Slot>): Nodes {
    if node == old' then un else un[Named(node) := batch] - {Named(old')}
  }

  /** Only the batch of the old root is this array. */
  ghost predicate Owned(un: Nodes, batch: array<Slot>, root: Ref) {
    forall d :: d in un && un[d] == batch ==> d == Named(root)
  }

  /** Arrays under their digests: each of its own, and, but for the arrays in use, with the right batch. */
  ghost predicate Right(hash: Hash, U: iset<seq<seq<Byte>>>, un: Nodes, repr: set<array<Slot>>,
          busy: set<array<Slot>>)
    reads repr - busy
  {
    && Shaped(un, repr)
    && forall m, h :: Real(hash, U, m, h) && h % 4 == 0 && Idle(un, busy, DigestOf(hash, m, h)) ==>
         BatchOk(hash, un[DigestOf(hash, m, h)][..], m, h)
  }

  ghost predicate Shaped(un: Nodes, repr: set<array<Slot>>) {
    && ZERO !in un && (forall a :: a in repr ==> a.Length == 31) && (forall d :: d in un ==> un[d] in repr)
    && (forall d, e :: d in un && e in un && un[d] == un[e] ==> d == e)
  }

  ghost predicate Idle(un: Nodes, busy: set<array<Slot>>, d: Digest) {
    d in un && un[d] !in busy
  }

  /** The committed batches are right. */
  ghost predicate SavedRight(hash: Hash, U: iset<seq<seq<Byte>>>, saved: Store) {
    forall m, h :: Real(hash, U, m, h) && h % 4 == 0 && DigestOf(hash, m, h) in saved ==>
      BatchOk(hash, saved[DigestOf(hash, m, h)], m, h)
  }

  lemma RightBusier(hash: Hash, U: iset<seq<seq<Byte>>>, un: Nodes, repr: set<array<Slot>>, busy: set<array<Slot>>,
          batch: array<Slot>)
    requires Right(hash, U, un, repr, busy) && batch.Length == 31
    ensures Right(hash, U, un, repr + {batch}, busy + {batch})
  {
    hide NodesIn, Agree, BatchOk, DigestOf;
  }

  lemma RightIdle(hash: Hash, U: iset<seq<seq<Byte>>>, un: Nodes, repr: set<array<Slot>>, busy: set<array<Slot>>,
          batch: array<Slot>)
    requires Right(hash, U, un, repr, busy) && forall d :: d in un ==> un[d] != batch
    ensures Right(hash, U, un, repr, busy - {batch})
  {
    hide NodesIn, Agree, BatchOk, DigestOf;
  }

  lemma RightDelete(hash: Hash, U: iset<seq<seq<Byte>>>, un: Nodes, repr: set<array<Slot>>, busy: set<array<Slot>>,
          d: Digest)
    requires Right(hash, U, un, repr, busy)
    ensures Right(hash, U, un - {d}, repr, busy)
  {
    hide NodesIn, Agree, BatchOk, DigestOf;
  }

  /** A finished batch is right under its digest, and no longer in use. */
  lemma PutRight(hash: Hash, U: iset<seq<seq<Byte>>>, un: Nodes, repr: set<array<Slot>>, busy: set<array<Slot>>,
          batch: array<Slot>, node: Ref, root: Ref, m: Map, h: nat)
    requires CollisionFree(hash, U) && Right(hash, U, un, repr, busy) && batch in busy && batch in repr
    requires Real(hash, U, m, h) && h % 4 == 0 && Named(node) == DigestOf(hash, m, h)
    requires batch.Length == 31 && BatchOk(hash, batch[..], m, h) && Owned(un, batch, root)
    ensures Right(hash, U, Put(un, node, root, batch), repr, busy - {batch})
  {
    hide BatchOk, DigestOf, NodesIn, Agree;
    NotZero(hash, U, m, h);
    var now := Put(un, node, root, batch);
    forall s, g | Real(hash, U, s, g) && g % 4 == 0 && Idle(now, busy - {batch}, DigestOf(hash, s, g))
      ensures BatchOk(hash, now[DigestOf(hash, s, g)][..], s, g)
    {
      if DigestOf(hash, s, g) == DigestOf(hash, m, h) {
        SameDigest(hash, U, m, h, s, g);
        LeafBatch(hash, batch[..], m, h, g);
      }
    }
  }

  /** Storing and deleting at one node touches only digests inside. */
  lemma PutKept(hash: Hash, U: iset<seq<seq<Byte>>>, un: Nodes, busy: set<array<Slot>>, batch: array<Slot>, node: Ref,
          root: Ref, m0: Map, m: Map, q: Key, h: nat)
    requires ZERO !in un && Real(hash, U, m, h) && Named(node) == DigestOf(hash, m, h)
    requires h <= BITS && Names(hash, root, m0, h) && (|m0| > 0 ==> Real(hash, U, m0, h))
    requires Near(m.Keys, q, h) && Near(m0.Keys, q, h)
    ensures Kept(hash, U, un, Put(un, node, root, batch), busy - {batch}, q, h)
  {
    hide Real, Names, Near, DigestOf, Inside;
    RealHere(hash, U, m, h);
    NameOf(hash, root, m0, h);
    IsInside(hash, U, m, h, q, h);
    if |m0| > 0 { IsInside(hash, U, m0, h, q, h); }
  }

  lemma RealHere(hash: Hash, U: iset<seq<seq<Byte>>>, m: Map, h: nat)
    requires Real(hash, U, m, h)
    ensures |m| > 0 && h <= BITS
  {
  }

  lemma NameOf(hash: Hash, root: Ref, m0: Map, h: nat)
    requires h <= BITS && Names(hash, root, m0, h)
    ensures Named(root) == if |m0| == 0 then ZERO else DigestOf(hash, m0, h)
  {
  }

  lemma DeleteKept(hash: Hash, U: iset<seq<seq<Byte>>>, un: Nodes, busy: set<array<Slot>>, root: Ref, m0: Map, g: nat,
          q: Key, h: nat)
    requires ZERO !in un && g <= h <= BITS && Names(hash, root, m0, g) && (|m0| > 0 ==> Real(hash, U, m0, g))
    requires Near(m0.Keys, q, h)
    ensures Kept(hash, U, un, un - {Named(root)}, busy, q, h)
  {
    hide NodesIn, Agree, Near, DigestOf, Inside;
    if |m0| > 0 { IsInside(hash, U, m0, g, q, h); }
  }

  // ---------------------------------------------------------------- what an update loses

  /** The leaf on the way of a key, when it has a batch of its own between top and bottom. */
  ghost function LeafOnWay(hash: Hash, m: Map, k: Key, h: nat): set<Digest>
    requires h <= BITS
    decreases h, hash
  {
    if |m| == 0 || h == 0 then {}
    else if |m| == 1 then if h % 4 == 0 then {DigestOf(hash, m, h)} else {}
    else LeafOnWay(hash, Half(m, BITS - h, BitIsSet(k, BITS - h)), k, h - 1)
  }

  /** Below the top a write that changes nothing deletes the leaf on its way, which is then not stored again. */
  ghost function GoneBelow(hash: Hash, m: Map, kv: seq<KV>, h: nat): set<Digest>
    requires h <= BITS
  {
    if kv != [] && Apply(m, kv) == m then LeafOnWay(hash, m, kv[0].k, h) else {}
  }

  /** At the top the old root is deleted last, in any case. */
  ghost function Gone(hash: Hash, root: Ref, m: Map, kv: seq<KV>, h: nat): set<Digest>
    requires h <= BITS
  {
    GoneBelow(hash, m, kv, h) + if root.Bare? then {root.digest} else {}
  }

  /** What the node itself needs to know about the digests that go. */
  ghost predicate GoneOk(hash: Hash, root: Ref, m: Map, h: nat, gone: set<Digest>)
    requires h <= BITS
  {
    && (root.Bare? ==> root.digest in gone)
    && (|m| > 0 && DigestOf(hash, m, h) in gone ==> DigestOf(hash, m, h) == Named(root))
    && (|m| == 1 && h > 0 && (h - 1) % 4 == 0 ==> DigestOf(hash, m, h - 1) !in gone)
  }

  lemma GoneGood(hash: Hash, root: Ref, m: Map, kv: seq<KV>, h: nat)
    requires h <= BITS && Names(hash, root, m, h)
    ensures GoneOk(hash, root, Apply(m, kv), h, Gone(hash, root, m, kv, h))
    ensures |m| == 1 && h > 0 && h % 4 == 0 && kv != [] && Apply(m, kv) == m ==>
              DigestOf(hash, m, h) in Gone(hash, root, m, kv, h)
    ensures |m| == 1 ==> forall d :: d in Gone(hash, root, m, kv, h) ==> d == DigestOf(hash, m, h) && h % 4 == 0
    ensures |m| == 0 ==> Gone(hash, root, m, kv, h) == {}
    ensures !root.Bare? && h == 0 ==> Gone(hash, root, m, kv, h) == {}
  {
    hide DigestOf, Apply, LeafOnWay;
    if kv != [] { LeafCases(hash, m, kv[0].k, h); }
  }

  lemma LeafCases(hash: Hash, m: Map, k: Key, h: nat)
    requires h <= BITS
    ensures |m| == 0 || h == 0 ==> LeafOnWay(hash, m, k, h) == {}
    ensures |m| == 1 && h > 0 ==> LeafOnWay(hash, m, k, h) == if h % 4 == 0 then {DigestOf(hash, m, h)} else {}
  {
  }

  /** Above a node with two keys or more, or none, only the leaf on the side of the write goes. */
  lemma GoneSides(hash: Hash, m: Map, kv: seq<KV>, h: nat)
    requires 0 < h <= BITS && |m| != 1 && (m == map[] || |kv| == 1)
    ensures GoneBelow(hash, m, kv, h) == GoneBelow(hash, Half(m, BITS - h, false), Going(kv, BITS - h, false), h - 1)
      + GoneBelow(hash, Half(m, BITS - h, true), Going(kv, BITS - h, true), h - 1)
  {
    hide GoneBelow, Half, BitIsSet, Going;
    var d := BITS - h;
    if |m| == 0 {
      HalvesJoin(m, d);
      NoneGone(hash, m, kv, h);
      NoneGone(hash, Half(m, d, false), Going(kv, d, false), h - 1);
      NoneGone(hash, Half(m, d, true), Going(kv, d, true), h - 1);
    } else {
      assert kv == [kv[0]];
      GoneSide(hash, m, kv[0], h);
    }
  }

  lemma GoneSide(hash: Hash, m: Map, w: KV, h: nat)
    requires 0 < h <= BITS && |m| >= 2
    ensures var right := BitIsSet(w.k, BITS - h);
      && GoneBelow(hash, m, [w], h) ==
           GoneBelow(hash, Half(m, BITS - h, right), Going([w], BITS - h, right), h - 1)
      && GoneBelow(hash, Half(m, BITS - h, !right), Going([w], BITS - h, !right), h - 1) == {}
  {
    hide DigestOf, Apply, Half, BitIsSet, LeafOnWay, Going;
    var d := BITS - h;
    var right := BitIsSet(w.k, d);
    OneGoes(w, d);
    ApplyHalf(m, [w], d, right);
    ApplyHalf(m, [w], d, !right);
    HalvesJoin(m, d);
    HalvesJoin(Apply(m, [w]), d);
    ApplyToNothing(Half(m, d, !right));
    LeafBelow(hash, m, w.k, h);
    SameHalves(m, Apply(m, [w]), d, right);
  }

  lemma SameHalves(m: Map, m': Map, d: nat, right: bool)
    requires d < BITS && Half(m', d, !right) == Half(m, d, !right)
    ensures m' == m <==> Half(m', d, right) == Half(m, d, right)
  {
    hide Half;
    HalvesJoin(m, d);
    HalvesJoin(m', d);
  }

  lemma NoneGone(hash: Hash, m: Map, kv: seq<KV>, h: nat)
    requires |m| == 0 && h <= BITS
    ensures GoneBelow(hash, m, kv, h) == {}
  {
  }

  lemma LeafBelow(hash: Hash, m: Map, k: Key, h: nat)
    requires 0 < h <= BITS && |m| >= 2
    ensures LeafOnWay(hash, m, k, h) == LeafOnWay(hash, Half(m, BITS - h, BitIsSet(k, BITS - h)), k, h - 1)
  {
  }

  lemma OneGoes(w: KV, d: nat)
    requires d < BITS
    ensures Going([w], d, BitIsSet(w.k, d)) == [w] && Going([w], d, !BitIsSet(w.k, d)) == []
  {
    assert [w][1..] == [];
  }

  lemma ApplyToNothing(m: Map)
    ensures Apply(m, []) == m
  {
  }

  /** The old root, unless it is the same node, is not needed by the new tree below the top. */
  ghost predicate Spared(un: Nodes, saved: set<Digest>, busy: set<array<Slot>>, root: Ref, m0: Map, m: Map,
          gone: set<Digest>)
  {
    root.Flagged? && m == m0 ==> root.digest in gone || Loadable(un, saved, busy, root.digest)
  }

  /** What goes is gone already, but for the root of the whole trie. */
  ghost predicate Away(un: Nodes, root: Ref, gone: set<Digest>) {
    forall d :: d in gone && d in un ==> root.Bare? && d == root.digest
  }

  /** The whole tree once its topmost batch is stored. */
  lemma PutHeld(hash: Hash, U: iset<seq<seq<Byte>>>, un: Nodes, saved: set<Digest>, busy: set<array<Slot>>,
          batch: array<Slot>, node: Ref, root: Ref, m0: Map, m: Map, h: nat, gone: set<Digest>)
    requires CollisionFree(hash, U) && Real(hash, U, m, h) && h % 4 == 0 && (|m| >= 2 ==> h > 0)
    requires node == Flagged(DigestOf(hash, m, h), |m| == 1) && batch in busy && ZERO !in un
    requires Names(hash, root, m0, h) && (|m0| > 0 ==> Real(hash, U, m0, h))
    requires |m| >= 2 ==> Held(hash, un, saved, busy, Half(m, BITS - h, false), h - 1, gone)
    requires |m| >= 2 ==> Held(hash, un, saved, busy, Half(m, BITS - h, true), h - 1, gone)
    requires GoneOk(hash, root, m, h, gone) && Spared(un, saved, busy - {batch}, root, m0, m, gone)
    requires Away(un, root, gone)
    ensures Held(hash, Put(un, node, root, batch), saved, busy - {batch}, m, h, gone)
    ensures forall d :: d in gone ==> d !in Put(un, node, root, batch)
  {
    hide NodesIn, Agree, DigestOf, Half, Needs;
    var now := Put(un, node, root, batch);
    NotZero(hash, U, m, h);
    if node == root { SameDigest(hash, U, m, h, m0, h); }
    forall d | Needs(hash, m, h, d) && d !in gone ensures Loadable(now, saved, busy - {batch}, d) {
      NeededWhere(hash, m, h, d);
      if d == DigestOf(hash, m, h) {
        if root.Flagged? && d == root.digest { SameDigest(hash, U, m, h, m0, h); }
      } else {
        OldElsewhere(hash, U, root, m0, m, h, d);
      }
    }
  }

  lemma NeededWhere(hash: Hash, m: Map, h: nat, d: Digest)
    requires h <= BITS && Needs(hash, m, h, d)
    ensures |m| > 0
    ensures d == DigestOf(hash, m, h) || (|m| >= 2 && h > 0
              && (Needs(hash, Half(m, BITS - h, false), h - 1, d) || Needs(hash, Half(m, BITS - h, true), h - 1, d)))
  {
  }

  /** A batch further down is not under the root's name. */
  lemma OldElsewhere(hash: Hash, U: iset<seq<seq<Byte>>>, root: Ref, m0: Map, m: Map, h: nat, d: Digest)
    requires CollisionFree(hash, U) && Real(hash, U, m, h) && h > 0 && d != DigestOf(hash, m, h)
    requires Names(hash, root, m0, h) && (|m0| > 0 ==> Real(hash, U, m0, h)) && Needs(hash, m, h, d)
    ensures !root.Bare? ==> d != Named(root)
  {
    hide NodesIn, Agree, Half, Needs, Preimage;
    var s, g := NeedsReal(hash, U, m, h, d);
    NotZero(hash, U, s, g);
    if |m0| > 0 && d == DigestOf(hash, m0, h) { SameDigest(hash, U, s, g, m0, h); }
  }

  /** The node's own digest stays as it is while work goes on below it. */
  lemma Untouched(hash: Hash, U: iset<seq<seq<Byte>>>, s0: Nodes, s1: Nodes, s2: Nodes, busy: set<array<Slot>>, ql: Key,
          qr: Key, m0: Map, h: nat)
    requires CollisionFree(hash, U) && 0 < h && Real(hash, U, m0, h) && (h < BITS || |m0| >= 2)
    requires Kept(hash, U, s0, s1, busy, ql, h - 1) && Kept(hash, U, s1, s2, busy, qr, h - 1)
    ensures var d := DigestOf(hash, m0, h); (d in s0 <==> d in s2) && (d in s0 ==> s2[d] == s0[d])
  {
    hide Inside, NodesIn, Agree, DigestOf;
    Above(hash, U, m0, h, ql, h - 1);
    Above(hash, U, m0, h, qr, h - 1);
  }

  lemma OwnedStill(hash: Hash, U: iset<seq<seq<Byte>>>, was: Nodes, now: Nodes, busy: set<array<Slot>>, q: Key, h: nat,
          batch: array<Slot>, root: Ref)
    requires h <= BITS && Kept(hash, U, was, now, busy, q, h) && batch in busy && Owned(was, batch, root)
    ensures Owned(now, batch, root)
  {
    hide Inside;
  }

  // ---------------------------------------------------------------- what is lost at the top

  /** The one key of the trie gets a neighbour that differs only in the last bit. */
  ghost predicate Twin(m: Map, w: KV) {
    |m| == 1 && w.v.Some? && w.k != TheKey(m) && SameBits(w.k, TheKey(m), BITS - 1)
  }

  /** The batches of the new trie that a write deletes: when it changes nothing, the one of the root, and the one of a
      leaf on its way; when it pushes the only leaf down to height 0, where its digest is that of height 256, the one of
      that leaf. */
  ghost function Lost(hash: Hash, m: Map, w: KV): set<Digest> {
    if |m| == 0 then {}
    else if ApplyOne(m, w) == m then {DigestOf(hash, m, BITS)} + LeafOnWay(hash, m, w.k, BITS)
    else if Twin(m, w) then {DigestOf(hash, m, BITS)}
    else {}
  }

  /** Of all that goes, `Lost` is what the new trie needs. */
  lemma LostExactly(hash: Hash, U: iset<seq<seq<Byte>>>, root: Ref, m: Map, w: KV, d: Digest)
    requires CollisionFree(hash, U) && Placed(m, BITS) && NodesIn(hash, U, m, BITS)
    requires Placed(ApplyOne(m, w), BITS) && NodesIn(hash, U, ApplyOne(m, w), BITS)
    requires root == if |m| == 0 then Absent else Bare(DigestOf(hash, m, BITS))
    ensures d in Gone(hash, root, m, [w], BITS) && Needs(hash, ApplyOne(m, w), BITS, d) <==> d in Lost(hash, m, w)
  {
    hide NodesIn, Agree, DigestOf, LeafOnWay, Needs, Twin, CollisionFree;
    assert Apply(m, [w]) == ApplyOne(m, w) by { assert [w][1..] == []; }
    if |m| == 0 {
      NoneGone(hash, m, [w], BITS);
    } else if ApplyOne(m, w) == m {
      RootNeeded(hash, m);
      if d in LeafOnWay(hash, m, w.k, BITS) { LeafNeeded(hash, m, w.k, BITS, d); }
    } else {
      OldRootNeeded(hash, U, m, w);
    }
  }

  lemma RootNeeded(hash: Hash, m: Map)
    requires |m| > 0
    ensures Needs(hash, m, BITS, DigestOf(hash, m, BITS))
  {
  }

  lemma {:induction false} LeafNeeded(hash: Hash, m: Map, k: Key, h: nat, d: Digest)
    requires h <= BITS && d in LeafOnWay(hash, m, k, h)
    ensures Needs(hash, m, h, d)
    decreases h
  {
    hide DigestOf, Half;
    if |m| >= 2 {
      LeafNeeded(hash, Half(m, BITS - h, BitIsSet(k, BITS - h)), k, h - 1, d);
    }
  }

  /** A changed trie needs the old root's batch only when it is that of the leaf at height 0. */
  lemma OldRootNeeded(hash: Hash, U: iset<seq<seq<Byte>>>, m: Map, w: KV)
    requires CollisionFree(hash, U) && Placed(m, BITS) && NodesIn(hash, U, m, BITS) && |m| > 0
    requires Placed(ApplyOne(m, w), BITS) && NodesIn(hash, U, ApplyOne(m, w), BITS) && ApplyOne(m, w) != m
    ensures Needs(hash, ApplyOne(m, w), BITS, DigestOf(hash, m, BITS)) <==> Twin(m, w)
  {
    hide NodesIn, Agree, DigestOf, Needs, CollisionFree, SameBits, Twin, ApplyOne;
    var m', d := ApplyOne(m, w), DigestOf(hash, m, BITS);
    if |m| == 1 && w.v.Some? && w.k != TheKey(m) {
      TwinNeeded(hash, U, m, w);
    } else {
      if Needs(hash, m', BITS, d) {
        var s, g := NeedsReal(hash, U, m', BITS, d);
        SameDigest(hash, U, s, g, m, BITS);
        FewKeys(m, w);
      }
      NoTwin(m, w);
    }
  }

  lemma TwinNeeded(hash: Hash, U: iset<seq<seq<Byte>>>, m: Map, w: KV)
    requires CollisionFree(hash, U) && Placed(m, BITS) && NodesIn(hash, U, m, BITS)
    requires Placed(ApplyOne(m, w), BITS) && NodesIn(hash, U, ApplyOne(m, w), BITS)
    requires |m| == 1 && w.v.Some? && w.k != TheKey(m)
    ensures Needs(hash, ApplyOne(m, w), BITS, DigestOf(hash, m, BITS)) <==> Twin(m, w)
  {
    hide NodesIn, Agree, DigestOf, Needs, CollisionFree, BitIsSet;
    var k, m' := TheKey(m), ApplyOne(m, w);
    OneEntry(m, k);
    assert m' == map[k := m[k], w.k := w.v.value] && m'.Keys == {k, w.k};
    Twins(hash, U, m', k, w.k, BITS);
  }

  lemma FewKeys(m: Map, w: KV)
    requires |m| == 1 && (w.v.None? || w.k == TheKey(m))
    ensures |ApplyOne(m, w)| <= 1
  {
    OneEntry(m, TheKey(m));
    var m' := ApplyOne(m, w);
    assert m'.Keys <= {w.k} + m.Keys;
    if w.v.None? {
      assert m'.Keys <= m.Keys;
      Fewer(m'.Keys, m.Keys);
    } else {
      assert m'.Keys == {w.k};
    }
  }

  lemma Fewer(a: set<Key>, b: set<Key>)
    requires a <= b
    ensures |a| <= |b|
  {
    assert b == a + (b - a);
  }

  lemma NoTwin(m: Map, w: KV)
    requires !(|m| == 1 && w.v.Some? && w.k != TheKey(m))
    ensures !Twin(m, w)
  {
  }

  /** The tag is one byte, so a leaf has the same digest at the top and at the bottom. */
  lemma LeafAtEnds(hash: Hash, m: Map)
    requires |m| == 1
    ensures DigestOf(hash, m, BITS) == DigestOf(hash, m, 0)
  {
  }

  /** Two keys: the leaf of one of them is at height 0 exactly when they differ only in the last bit. */
  lemma {:induction false} Twins(hash: Hash, U: iset<seq<seq<Byte>>>, m: Map, a: Key, b: Key, h: nat)
    requires CollisionFree(hash, U) && Placed(m, h) && NodesIn(hash, U, m, h) && 0 < h && a != b
    requires a in m && b in m && m.Keys == {a, b} && SameBits(a, b, BITS - h)
    requires Real(hash, U, map[a := m[a]], BITS)
    ensures Needs(hash, m, h, DigestOf(hash, map[a := m[a]], BITS)) <==> SameBits(b, a, BITS - 1)
    decreases h
  {
    hide NodesIn, Agree, DigestOf, Needs, CollisionFree, BitIsSet;
    var d, t := BITS - h, map[a := m[a]];
    var x := DigestOf(hash, t, BITS);
    assert |m| == 2;
    NeededHalf(hash, m, h, x);
    if x == DigestOf(hash, m, h) { SameDigest(hash, U, t, BITS, m, h); }
    TwinHalves(m, a, b, d);
    PlacedHalf(m, h, false);
    PlacedHalf(m, h, true);
    NodesInHalf(hash, U, m, h, false);
    NodesInHalf(hash, U, m, h, true);
    if BitIsSet(a, d) == BitIsSet(b, d) {
      if h == 1 { BitsDetermine(a, b); }
      NothingNeeded(hash, Half(m, d, !BitIsSet(a, d)), h - 1, x);
      Twins(hash, U, Half(m, d, BitIsSet(a, d)), a, b, h - 1);
    } else {
      LeafNeeds(hash, U, t, h - 1, t);
      LeafNeeds(hash, U, map[b := m[b]], h - 1, t);
      LastBit(a, b, d);
    }
  }

  lemma NeededHalf(hash: Hash, m: Map, h: nat, d: Digest)
    requires 0 < h <= BITS && |m| >= 2
    ensures Needs(hash, m, h, d) <==>
              ((h % 4 == 0 && d == DigestOf(hash, m, h))
               || Needs(hash, Half(m, BITS - h, false), h - 1, d) || Needs(hash, Half(m, BITS - h, true), h - 1, d))
  {
  }

  lemma NothingNeeded(hash: Hash, m: Map, h: nat, d: Digest)
    requires |m| == 0 && h <= BITS
    ensures !Needs(hash, m, h, d)
  {
  }

  lemma TwinHalves(m: Map, a: Key, b: Key, d: nat)
    requires d < BITS && m.Keys == {a, b}
    ensures BitIsSet(a, d) == BitIsSet(b, d) ==>
              Half(m, d, BitIsSet(a, d)) == m && |Half(m, d, !BitIsSet(a, d))| == 0
    ensures BitIsSet(a, d) != BitIsSet(b, d) ==>
              Half(m, d, BitIsSet(a, d)) == map[a := m[a]] && Half(m, d, BitIsSet(b, d)) == map[b := m[b]]
  {
    hide BitIsSet;
    assert BitIsSet(a, d) == BitIsSet(b, d) ==> Half(m, d, !BitIsSet(a, d)) == map[];
  }

  /** A leaf below the top needs the batch of the leaf t at the top only at height 0, and if it is t. */
  lemma LeafNeeds(hash: Hash, U: iset<seq<seq<Byte>>>, s: Map, h: nat, t: Map)
    requires CollisionFree(hash, U) && |s| == 1 && |t| == 1 && h < BITS && Placed(s, h) && NodesIn(hash, U, s, h)
    requires Real(hash, U, t, BITS)
    ensures Needs(hash, s, h, DigestOf(hash, t, BITS)) <==> s == t && h == 0
  {
    LeafAtEnds(hash, t);
    hide NodesIn, Agree, DigestOf, CollisionFree;
    if DigestOf(hash, s, h) == DigestOf(hash, t, BITS) { SameDigest(hash, U, s, h, t, BITS); }
  }

  lemma LastBit(a: Key, b: Key, d: nat)
    requires d < BITS && SameBits(a, b, d) && BitIsSet(a, d) != BitIsSet(b, d)
    ensures SameBits(b, a, BITS - 1) <==> d == BITS - 1
  {
    hide BitIsSet;
  }
}
