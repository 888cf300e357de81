/** Merkle proofs of smt-v2: building, verifying, compressing.

    The audit path lists siblings from the leaf upward; the verifier folds it from the root downward
    along the bits of the key.
 */
module BitProofs {
  import opened Words
  import opened BitKeys
  import opened BitTreeModel

  /** The results of `merkleProof`: audit path, whether the key is included, and the key and value of the leaf found. */
  datatype Proof = Proof(ap: seq<seq<Byte>>, included: bool, proofKey: Option<Key>, proofVal: Option<Value>)

  /** The proof for a key in the canonical tree of m at height h. */
  ghost function ProofOf(hash: Hash, m: Map, key: Key, h: nat): Proof
    requires h <= BITS
    decreases h, hash
  {
    if |m| == 0 then Proof([], false, None, None)
    else if |m| == 1 || h == 0 then
      if TheKey(m) == key then Proof([], true, None, Some(m[key]))
      else Proof([], false, Some(TheKey(m)), Some(m[TheKey(m)]))
    else
      var right := BitIsSet(key, BITS - h);
      var p := ProofOf(hash, Half(m, BITS - h, right), key, h - 1);
      p.(ap := p.ap + [Side(hash, Half(m, BITS - h, !right), h - 1)])
  }

  /** `verifyInclusion`.  A path longer than the key has bits is out of range in the source, too. */
  function VerifyPath(hash: Hash, ap: seq<seq<Byte>>, keyIndex: nat, key: Key, leafHash: seq<Byte>): seq<Byte>
    requires keyIndex <= |ap| <= BITS
    decreases |ap| - keyIndex
  {
    if keyIndex == |ap| then leafHash
    else if BitIsSet(key, keyIndex)
      then hash([ap[|ap| - keyIndex - 1], VerifyPath(hash, ap, keyIndex + 1, key, leafHash)])
    else hash([VerifyPath(hash, ap, keyIndex + 1, key, leafHash), ap[|ap| - keyIndex - 1]])
  }

  /** `bytes.Equal(s.Root, b)`: an empty trie has a nil root, which equals no digest and not `DefaultLeaf`. */
  predicate RootIs(root: Option<Digest>, b: seq<Byte>) {
    root.Some? && root.value == b
  }

  /** `VerifyInclusion` */
  predicate VerifyInclusion(hash: Hash, root: Option<Digest>, ap: seq<seq<Byte>>, key: Key, value: Value)
    requires |ap| <= BITS
  {
    RootIs(root, VerifyPath(hash, ap, 0, key, hash([key, value, [HeightTag(BITS - |ap|)]])))
  }

  /** `VerifyNonInclusion`, with the loop over the bits as a quantifier. */
  ghost predicate NonInclusionHolds(hash: Hash, root: Option<Digest>, ap: seq<seq<Byte>>, key: Key, value: Value,
          proofKey: Option<Key>)
    requires |ap| <= BITS
  {
    match proofKey
    case None => RootIs(root, VerifyPath(hash, ap, 0, key, DEFAULT_LEAF))
    case Some(other) => VerifyInclusion(hash, root, ap, other, value) && SameBits(key, other, |ap|)
  }

  method VerifyNonInclusion(hash: Hash, root: Option<Digest>, ap: seq<seq<Byte>>, key: Key, value: Value,
          proofKey: Option<Key>) returns (ok: bool)
    requires |ap| <= BITS
    ensures ok <==> NonInclusionHolds(hash, root, ap, key, value, proofKey)
  {
    if proofKey == None {
      return RootIs(root, VerifyPath(hash, ap, 0, key, DEFAULT_LEAF));
    }
    if !VerifyInclusion(hash, root, ap, proofKey.value, value) {
      return false;
    }
    for b := 0 to |ap|
      invariant SameBits(key, proofKey.value, b)
    {
      if BitIsSet(key, b) != BitIsSet(proofKey.value, b) {
        return false;
      }
    }
    return true;
  }

  // ---------------------------------------------------------------- one level at a time

  /** The fold below depth d, on the part of the path that belongs there. */
  function FoldFrom(hash: Hash, ap: seq<seq<Byte>>, d: nat, key: Key, leaf: seq<Byte>): seq<Byte>
    requires d + |ap| <= BITS
    decreases |ap|
  {
    if ap == [] then leaf
    else
      var top, rest := ap[|ap| - 1], FoldFrom(hash, ap[..|ap| - 1], d + 1, key, leaf);
      if BitIsSet(key, d) then hash([top, rest]) else hash([rest, top])
  }

  lemma {:induction false} FoldIsPath(hash: Hash, ap: seq<seq<Byte>>, i: nat, key: Key, leaf: seq<Byte>)
    requires i <= |ap| <= BITS
    ensures VerifyPath(hash, ap, i, key, leaf) == FoldFrom(hash, ap[..|ap| - i], i, key, leaf)
    decreases |ap| - i
  {
    if i < |ap| {
      FoldIsPath(hash, ap, i + 1, key, leaf);
      assert ap[..|ap| - i][..|ap| - i - 1] == ap[..|ap| - (i + 1)];
    }
  }

  /** Only the bits along the path matter. */
  lemma {:induction false} FoldSameBits(hash: Hash, ap: seq<seq<Byte>>, d: nat, key: Key, other: Key, leaf: seq<Byte>)
    requires d + |ap| <= BITS && SameBits(key, other, d + |ap|)
    ensures FoldFrom(hash, ap, d, key, leaf) == FoldFrom(hash, ap, d, other, leaf)
    decreases |ap|
  {
    if ap != [] {
      FoldSameBits(hash, ap[..|ap| - 1], d + 1, key, other, leaf);
    }
  }

  // ---------------------------------------------------------------- completeness

  /** What the verifier starts the fold with. */
  function LeafOf(hash: Hash, p: Proof, key: Key, h: nat): seq<Byte>
    requires |p.ap| <= h
  {
    if p.included && p.proofVal.Some? then hash([key, p.proofVal.value, [HeightTag(h - |p.ap|)]])
    else if p.proofKey.Some? && p.proofVal.Some?
      then hash([p.proofKey.value, p.proofVal.value, [HeightTag(h - |p.ap|)]])
    else DEFAULT_LEAF
  }

  lemma {:induction false} ProofShape(hash: Hash, m: Map, key: Key, h: nat)
    requires Placed(m, h)
    ensures var p := ProofOf(hash, m, key, h);
            && |p.ap| <= h
            && (p.included <==> key in m) && (p.included ==> p.proofVal == Some(m[key]) && p.proofKey == None)
            && (!p.included && p.proofKey.Some? ==>
                 p.proofKey.value in m && p.proofKey.value != key && p.proofVal == Some(m[p.proofKey.value]))
            && (!p.included && p.proofKey == None ==> p.proofVal == None)
            && (p.proofKey.Some? && SameBits(key, p.proofKey.value, BITS - h) ==>
                 SameBits(key, p.proofKey.value, BITS - h + |p.ap|))
    decreases h
  {
    hide SameBits;
    if |m| > 0 {
      if h == 0 { OneAtBottom(m); }
      if |m| == 1 {
        OneEntry(m, TheKey(m));
      } else {
        ProofShapeStep(hash, m, key, h);
      }
    }
  }

  lemma ProofStep(hash: Hash, m: Map, key: Key, h: nat)
    requires |m| >= 2 && 0 < h <= BITS
    ensures var right := BitIsSet(key, BITS - h);
            var q := ProofOf(hash, Half(m, BITS - h, right), key, h - 1);
            ProofOf(hash, m, key, h) == q.(ap := q.ap + [Side(hash, Half(m, BITS - h, !right), h - 1)])
    ensures Side(hash, m, h) == hash([Side(hash, Half(m, BITS - h, false), h - 1),
      Side(hash, Half(m, BITS - h, true), h - 1)])
  {
  }

  lemma FoldStep(hash: Hash, ap: seq<seq<Byte>>, top: seq<Byte>, d: nat, key: Key, leaf: seq<Byte>)
    requires d + |ap| < BITS
    ensures var rest := FoldFrom(hash, ap, d + 1, key, leaf);
            FoldFrom(hash, ap + [top], d, key, leaf) ==
            if BitIsSet(key, d) then hash([top, rest]) else hash([rest, top])
  {
    assert (ap + [top])[..|ap|] == ap;
  }

  lemma HalfHas(m: Map, d: nat, key: Key)
    requires d < BITS
    ensures var half := Half(m, d, BitIsSet(key, d));
            (key in m <==> key in half) && (key in m ==> m[key] == half[key])
    ensures forall right, k :: k in Half(m, d, right) ==>
      k in m && m[k] == Half(m, d, right)[k] && BitIsSet(k, d) == right
  {
  }

  lemma ProofShapeStep(hash: Hash, m: Map, key: Key, h: nat)
    requires Placed(m, h) && |m| >= 2 && h > 0
    ensures var p := ProofOf(hash, m, key, h);
            && |p.ap| <= h
            && (p.included <==> key in m) && (p.included ==> p.proofVal == Some(m[key]) && p.proofKey == None)
            && (!p.included && p.proofKey.Some? ==>
                 p.proofKey.value in m && p.proofKey.value != key && p.proofVal == Some(m[p.proofKey.value]))
            && (!p.included && p.proofKey == None ==> p.proofVal == None)
            && (p.proofKey.Some? && SameBits(key, p.proofKey.value, BITS - h) ==>
                 SameBits(key, p.proofKey.value, BITS - h + |p.ap|))
    decreases h, 0
  {
    hide ProofOf, Half, Agree, BitIsSet;
    var right := BitIsSet(key, BITS - h);
    var half := Half(m, BITS - h, right);
    PlacedHalf(m, h, right);
    ProofShape(hash, half, key, h - 1);
    ProofStep(hash, m, key, h);
    HalfHas(m, BITS - h, key);
  }

  /** Folding the proof of a key from its leaf gives the digest of the tree. */
  lemma {:induction false} ProofFolds(hash: Hash, m: Map, key: Key, h: nat)
    requires Placed(m, h)
    ensures var p := ProofOf(hash, m, key, h);
            |p.ap| <= h && FoldFrom(hash, p.ap, BITS - h, key, LeafOf(hash, p, key, h)) == Side(hash, m, h)
    decreases h
  {
    ProofShape(hash, m, key, h);
    if |m| > 0 {
      if h == 0 { OneAtBottom(m); }
      if |m| == 1 {
        OneEntry(m, TheKey(m));
      } else {
        ProofFoldsStep(hash, m, key, h);
      }
    }
  }

  lemma ProofFoldsStep(hash: Hash, m: Map, key: Key, h: nat)
    requires Placed(m, h) && |m| >= 2 && h > 0
    ensures var p := ProofOf(hash, m, key, h);
            |p.ap| <= h && FoldFrom(hash, p.ap, BITS - h, key, LeafOf(hash, p, key, h)) == Side(hash, m, h)
    decreases h, 0
  {
    hide BitIsSet, Agree, ProofOf, Half, Side, FoldFrom;
    var right := BitIsSet(key, BITS - h);
    var half, other := Half(m, BITS - h, right), Half(m, BITS - h, !right);
    PlacedHalf(m, h, right);
    ProofFolds(hash, half, key, h - 1);
    var p, q := ProofOf(hash, m, key, h), ProofOf(hash, half, key, h - 1);
    ProofStep(hash, m, key, h);
    FoldStep(hash, q.ap, Side(hash, other, h - 1), BITS - h, key, LeafOf(hash, p, key, h));
    assert LeafOf(hash, p, key, h) == LeafOf(hash, q, key, h - 1);
  }

  /** The entries that agree with the key on the first i bits. */
  ghost function Around(m: Map, key: Key, i: nat): Map
    requires i <= BITS
  {
    map k | k in m && SameBits(k, key, i) :: m[k]
  }

  /** Those of them that do not agree with it on bit i. */
  ghost function Beside(m: Map, key: Key, i: nat): Map
    requires i < BITS
  {
    map k | k in m && SameBits(k, key, i) && BitIsSet(k, i) != BitIsSet(key, i) :: m[k]
  }

  /** The entry of the audit path for bit i, counted from the root at its end, is the digest of the entries beside the
      key there, or the byte 0 when there are none. */
  ghost predicate EntryIs(hash: Hash, m: Map, key: Key, i: nat, height: nat, entry: seq<Byte>)
    requires i < BITS && height <= BITS
  {
    entry == Child(RootOf(hash, Beside(m, key, i), height))
  }

  lemma HalfAround(m: Map, key: Key, d: nat, i: nat)
    requires d < i <= BITS
    ensures Around(Half(m, d, BitIsSet(key, d)), key, i) == Around(m, key, i)
    ensures i < BITS ==> Beside(Half(m, d, BitIsSet(key, d)), key, i) == Beside(m, key, i)
  {
    hide BitIsSet;
  }

  lemma TopAround(m: Map, key: Key, d: nat)
    requires d < BITS && forall k :: k in m ==> SameBits(k, key, d)
    ensures Around(m, key, d) == m && Beside(m, key, d) == Half(m, d, !BitIsSet(key, d))
    ensures forall k :: k in Half(m, d, BitIsSet(key, d)) ==> SameBits(k, key, d + 1)
  {
    hide BitIsSet;
  }

  /** An audit path goes down exactly as far as two entries or more agree with the key, and has the sibling of the key's
      subtree at every bit on the way. */
  lemma {:induction false} ProofLaw(hash: Hash, m: Map, key: Key, h: nat, i: nat)
    requires Placed(m, h) && forall k :: k in m ==> SameBits(k, key, BITS - h)
    ensures var ap, d := ProofOf(hash, m, key, h).ap, BITS - h;
      && |ap| <= h && |Around(m, key, d + |ap|)| <= 1
      && (i < |ap| ==> |Around(m, key, d + i)| >= 2 && EntryIs(hash, m, key, d + i, h - 1 - i, ap[|ap| - 1 - i]))
    decreases h
  {
    hide Around, Beside, Half, Side, Preimage, SameBits, BitIsSet, Agree;
    var d := BITS - h;
    if |m| <= 1 || h == 0 {
      ShortPath(hash, m, key, h);
    } else {
      var half := Half(m, d, BitIsSet(key, d));
      PlacedHalf(m, h, BitIsSet(key, d));
      TopAround(m, key, d);
      ProofLaw(hash, half, key, h - 1, if i > 0 then i - 1 else 0);
      ProofStep(hash, m, key, h);
      var q := ProofOf(hash, half, key, h - 1).ap;
      HalfAround(m, key, d, d + 1 + |q|);
      if 0 < i <= |q| {
        HalfAround(m, key, d, d + i);
      } else {
        SideLaw(hash, Beside(m, key, d), h - 1);
      }
    }
  }

  lemma ShortPath(hash: Hash, m: Map, key: Key, h: nat)
    requires Placed(m, h) && (forall k :: k in m ==> SameBits(k, key, BITS - h)) && (|m| <= 1 || h == 0)
    ensures ProofOf(hash, m, key, h).ap == [] && |Around(m, key, BITS - h)| <= 1
  {
    if h == 0 { OneAtBottom(m); }
    assert Around(m, key, BITS - h) == m;
  }

  /** Completeness: on every non-empty trie the proof of a key is accepted, as inclusion with the stored value if the
      key is present, and as non-inclusion otherwise. */
  lemma Completeness(hash: Hash, m: Map, key: Key)
    requires m != map[]
    ensures var root, p := RootOf(hash, m, BITS), ProofOf(hash, m, key, BITS);
            && |p.ap| <= BITS && (p.included <==> key in m)
            && (key in m ==> p.proofVal == Some(m[key]) && VerifyInclusion(hash, root, p.ap, key, m[key]))
            && (key !in m ==> NonInclusionHolds(hash, root, p.ap, key, p.proofVal.GetOr(key), p.proofKey))
  {
    hide ProofOf, FoldFrom, VerifyPath, Preimage, BitIsSet;
    assert Placed(m, BITS);
    var p := ProofOf(hash, m, key, BITS);
    ProofShape(hash, m, key, BITS);
    ProofFolds(hash, m, key, BITS);
    var leaf := LeafOf(hash, p, key, BITS);
    FoldIsPath(hash, p.ap, 0, key, leaf);
    assert p.ap[..|p.ap|] == p.ap;
    if p.proofKey.Some? {
      var other := p.proofKey.value;
      FoldIsPath(hash, p.ap, 0, other, leaf);
      FoldSameBits(hash, p.ap, 0, key, other, leaf);
    }
  }

  /** On the empty trie the proof of non-inclusion is empty and is not accepted: the root is nil, not `DefaultLeaf`. */
  lemma EmptyTrieRejects(hash: Hash, key: Key, value: Value)
    ensures var p := ProofOf(hash, map[], key, BITS);
            !p.included && !NonInclusionHolds(hash, RootOf(hash, map[], BITS), p.ap, key, value, p.proofKey)
  {
  }

  // ---------------------------------------------------------------- soundness

  /** The inputs that a fold hashes, besides that of the leaf. */
  ghost predicate FoldIn(hash: Hash, P: iset<seq<seq<Byte>>>, ap: seq<seq<Byte>>, d: nat, key: Key, leaf: seq<Byte>)
    requires d + |ap| <= BITS
    decreases |ap|
  {
    ap != [] ==>
      var top, rest := ap[|ap| - 1], FoldFrom(hash, ap[..|ap| - 1], d + 1, key, leaf);
      && (if BitIsSet(key, d) then [top, rest] else [rest, top]) in P
      && FoldIn(hash, P, ap[..|ap| - 1], d + 1, key, leaf)
  }

  /** The part of m on the path of a key, n levels below height h. */
  ghost function OnPath(m: Map, key: Key, h: nat, n: nat): Map
    requires n <= h <= BITS
    decreases n
  {
    if n == 0 then m else OnPath(Half(m, BITS - h, BitIsSet(key, BITS - h)), key, h - 1, n - 1)
  }

  lemma {:induction false} OnPathHas(m: Map, key: Key, h: nat, n: nat, k: Key)
    requires n <= h <= BITS
    ensures var s := OnPath(m, key, h, n);
            && (k in s ==> k in m && s[k] == m[k])
            && (k in m && SameBits(k, key, BITS - h + n) ==> k in s)
    decreases n
  {
    if n > 0 {
      OnPathHas(Half(m, BITS - h, BitIsSet(key, BITS - h)), key, h - 1, n - 1, k);
    }
  }

  /** A path that folds to the digest of a tree goes down that tree: its leaf is the digest of what the tree has
      there, or the two exhibit a collision. */
  lemma {:induction false} FoldDescends(hash: Hash, P: iset<seq<seq<Byte>>>, m: Map, ap: seq<seq<Byte>>, key: Key,
          h: nat, leaf: seq<Byte>)
    returns (x: seq<seq<Byte>>, y: seq<seq<Byte>>)
    requires Placed(m, h) && |ap| <= h && NodesIn(hash, P, m, h) && FoldIn(hash, P, ap, BITS - h, key, leaf)
    requires FoldFrom(hash, ap, BITS - h, key, leaf) == Side(hash, m, h)
    ensures (Placed(OnPath(m, key, h, |ap|), h - |ap|) && NodesIn(hash, P, OnPath(m, key, h, |ap|), h - |ap|)
             && Side(hash, OnPath(m, key, h, |ap|), h - |ap|) == leaf)
         || (x in P && y in P && x != y && hash(x) == hash(y))
    decreases |ap|
  {
    hide Preimage, NodesIn, Half, Agree, BitIsSet, ProofOf;
    x, y := [], [];
    if ap != [] {
      var d, rest := BITS - h, ap[..|ap| - 1];
      var below := FoldFrom(hash, rest, d + 1, key, leaf);
      x := if BitIsSet(key, d) then [ap[|ap| - 1], below] else [below, ap[|ap| - 1]];
      assert |m| > 0;
      y := Preimage(hash, m, h);
      OwnPreimage(hash, P, m, h);
      LeafOrInterior(hash, m, h);
      if x == y {
        var right := BitIsSet(key, d);
        SideOfPreimage(hash, m, h, right);
        PlacedHalf(m, h, right);
        NodesInHalf(hash, P, m, h, right);
        x, y := FoldDescends(hash, P, Half(m, d, right), rest, key, h - 1, leaf);
      }
    }
  }

  /** What a leaf digest found on the path says: it is the only entry there. */
  lemma LeafFound(hash: Hash, P: iset<seq<seq<Byte>>>, m: Map, ap: seq<seq<Byte>>, key: Key, value: Value)
    returns (x: seq<seq<Byte>>, y: seq<seq<Byte>>)
    requires |ap| <= BITS && NodesIn(hash, P, m, BITS)
    requires var leaf := [key, value, [HeightTag(BITS - |ap|)]];
             leaf in P && FoldIn(hash, P, ap, 0, key, hash(leaf))
               && RootIs(RootOf(hash, m, BITS), FoldFrom(hash, ap, 0, key, hash(leaf)))
    ensures OnPath(m, key, BITS, |ap|) == map[key := value] || (x in P && y in P && x != y && hash(x) == hash(y))
  {
    hide Preimage, NodesIn, Half, BitIsSet, FoldFrom, FoldIn, OnPath;
    var leaf := [key, value, [HeightTag(BITS - |ap|)]];
    x, y := FoldDescends(hash, P, m, ap, key, BITS, hash(leaf));
    if !(x in P && y in P && x != y && hash(x) == hash(y)) {
      var s, h := OnPath(m, key, BITS, |ap|), BITS - |ap|;
      assert |s| > 0;
      x, y := leaf, Preimage(hash, s, h);
      OwnPreimage(hash, P, s, h);
      LeafOrInterior(hash, s, h);
      if x == y {
        OneEntry(s, key);
      }
    }
  }

  /** Soundness of inclusion: an accepted proof speaks the truth, or exhibits a collision. */
  lemma InclusionSound(hash: Hash, P: iset<seq<seq<Byte>>>, m: Map, ap: seq<seq<Byte>>, key: Key, value: Value)
    returns (x: seq<seq<Byte>>, y: seq<seq<Byte>>)
    requires |ap| <= BITS && NodesIn(hash, P, m, BITS) && VerifyInclusion(hash, RootOf(hash, m, BITS), ap, key, value)
    requires var leaf := [key, value, [HeightTag(BITS - |ap|)]]; leaf in P && FoldIn(hash, P, ap, 0, key, hash(leaf))
    ensures (key in m && m[key] == value) || (x in P && y in P && x != y && hash(x) == hash(y))
  {
    hide Preimage, NodesIn, FoldFrom, FoldIn, OnPath, VerifyPath;
    var leaf := [key, value, [HeightTag(BITS - |ap|)]];
    FoldIsPath(hash, ap, 0, key, hash(leaf));
    assert ap[..|ap|] == ap;
    x, y := LeafFound(hash, P, m, ap, key, value);
    OnPathHas(m, key, BITS, |ap|, key);
  }

  /** What the verifier of non-inclusion hashes is in P. */
  ghost predicate ProofIn(hash: Hash, P: iset<seq<seq<Byte>>>, ap: seq<seq<Byte>>, key: Key, value: Value,
          proofKey: Option<Key>)
    requires |ap| <= BITS
  {
    match proofKey
    case None => FoldIn(hash, P, ap, 0, key, DEFAULT_LEAF)
    case Some(other) =>
      var leaf := [other, value, [HeightTag(BITS - |ap|)]];
      leaf in P && FoldIn(hash, P, ap, 0, other, hash(leaf))
  }

  /** A key's own proof is accepted as a proof that the key is absent: the verifier does not compare the two keys. */
  lemma OwnLeafAccepted(hash: Hash, m: Map, key: Key)
    requires key in m
    ensures var p := ProofOf(hash, m, key, BITS);
            |p.ap| <= BITS && NonInclusionHolds(hash, RootOf(hash, m, BITS), p.ap, key, m[key], Some(key))
  {
    hide ProofOf, RootOf, VerifyInclusion;
    Completeness(hash, m, key);
  }

  /** Soundness of non-inclusion: an accepted proof is right exactly when its leaf is not the key's own, or it
      exhibits a collision.  The verifier does not compare the two keys. */
  lemma NonInclusionSound(hash: Hash, P: iset<seq<seq<Byte>>>, m: Map, ap: seq<seq<Byte>>, key: Key, value: Value,
          proofKey: Option<Key>)
    returns (x: seq<seq<Byte>>, y: seq<seq<Byte>>)
    requires |ap| <= BITS && NodesIn(hash, P, m, BITS)
      && NonInclusionHolds(hash, RootOf(hash, m, BITS), ap, key, value, proofKey)
    requires ProofIn(hash, P, ap, key, value, proofKey)
    ensures (key !in m <==> proofKey != Some(key)) || (x in P && y in P && x != y && hash(x) == hash(y))
  {
    hide Preimage, NodesIn, FoldFrom, FoldIn, OnPath, VerifyPath;
    assert ap[..|ap|] == ap;
    if proofKey == None {
      FoldIsPath(hash, ap, 0, key, DEFAULT_LEAF);
      x, y := FoldDescends(hash, P, m, ap, key, BITS, DEFAULT_LEAF);
      OnPathHas(m, key, BITS, |ap|, key);
    } else {
      var other := proofKey.value;
      FoldIsPath(hash, ap, 0, other, hash([other, value, [HeightTag(BITS - |ap|)]]));
      x, y := LeafFound(hash, P, m, ap, other, value);
      OnPathHas(m, other, BITS, |ap|, key);
      OnPathHas(m, other, BITS, |ap|, other);
    }
  }

  // ---------------------------------------------------------------- compression

  /** The entries that are not `DefaultLeaf`. */
  function Survivors(ap: seq<seq<Byte>>): seq<seq<Byte>> {
    if ap == [] then [] else Survivors(ap[..|ap| - 1]) + if ap[|ap| - 1] == DEFAULT_LEAF then [] else [ap[|ap| - 1]]
  }

  /** The bitmap marks exactly the surviving entries. */
  ghost predicate Marks(bitmap: seq<Byte>, ap: seq<seq<Byte>>) {
    |ap| <= 8 * |bitmap| && forall i :: 0 <= i < |ap| ==> (BitIsSet(bitmap, i) <==> ap[i] != DEFAULT_LEAF)
  }

  /** The loop of `merkleProofCompressed`. */
  method Compress(mpFull: seq<seq<Byte>>) returns (bitmap: seq<Byte>, mp: seq<seq<Byte>>)
    ensures Marks(bitmap, mpFull) && mp == Survivors(mpFull) && |bitmap| == |mpFull| / 8 + 1
  {
    bitmap, mp := seq(|mpFull| / 8 + 1, _ => 0), [];
    hide Bit;
    forall k | 0 <= k / 8 < |bitmap| && 0 <= k ensures !BitIsSet(bitmap, k) {
      ZeroBit(k % 8);
    }
    for i := 0 to |mpFull|
      invariant |bitmap| == |mpFull| / 8 + 1 && mp == Survivors(mpFull[..i])
      invariant forall k :: 0 <= k <= |mpFull| ==> (BitIsSet(bitmap, k) <==> k < i && mpFull[k] != DEFAULT_LEAF)
    {
      assert mpFull[..i + 1][..i] == mpFull[..i];
      if mpFull[i] != DEFAULT_LEAF {
        forall k | 0 <= k <= |mpFull| ensures BitIsSet(BitSet(bitmap, i), k) <==> k == i || BitIsSet(bitmap, k) {
          BitSetBit(bitmap, i, k);
        }
        bitmap := BitSet(bitmap, i);
        mp := mp + [mpFull[i]];
      }
    }
    assert mpFull[..|mpFull|] == mpFull;
  }

  /** A surviving entry comes behind the survivors before it. */
  lemma {:induction false} SurvivorAt(ap: seq<seq<Byte>>, i: nat)
    requires i < |ap| && ap[i] != [0]
    ensures |Survivors(ap[..i])| < |Survivors(ap)| && Survivors(ap)[|Survivors(ap[..i])|] == ap[i]
    decreases |ap|
  {
    if i < |ap| - 1 {
      SurvivorAt(ap[..|ap| - 1], i);
      assert ap[..|ap| - 1][..i] == ap[..i];
    }
  }

  /** There are as many as entries that are not the byte 0. */
  lemma {:induction false} SurvivorCount(ap: seq<seq<Byte>>)
    ensures |Survivors(ap)| == |set i | 0 <= i < |ap| && ap[i] != [0]|
    decreases |ap|
  {
    if ap != [] {
      var n := |ap| - 1;
      SurvivorCount(ap[..n]);
      var before, all := set i | 0 <= i < n && ap[..n][i] != [0], set i | 0 <= i < |ap| && ap[i] != [0];
      assert all == if ap[n] != [0] then before + {n} else before;
    }
  }

  lemma ZeroBit(j: nat)
    requires j < 8
    ensures !Bit(0, j)
  {
  }

  /** `verifyInclusionC` */
  function VerifyPathC(hash: Hash, bitmap: seq<Byte>, key: Key, leafHash: seq<Byte>, ap: seq<seq<Byte>>, length: nat,
          keyIndex: nat, apIndex: nat): seq<Byte>
    requires keyIndex <= length <= BITS && length <= 8 * |bitmap|
    requires apIndex + Marked(bitmap, length - keyIndex) <= |ap|
    decreases length - keyIndex
  {
    if keyIndex == length then leafHash
    else if BitIsSet(key, keyIndex) then
      if BitIsSet(bitmap, length - keyIndex - 1)
      then hash([ap[|ap| - apIndex - 1], VerifyPathC(hash, bitmap, key, leafHash, ap, length, keyIndex + 1,
        apIndex + 1)])
      else hash([DEFAULT_LEAF, VerifyPathC(hash, bitmap, key, leafHash, ap, length, keyIndex + 1, apIndex)])
    else
      if BitIsSet(bitmap, length - keyIndex - 1)
      then hash([VerifyPathC(hash, bitmap, key, leafHash, ap, length, keyIndex + 1, apIndex + 1),
        ap[|ap| - apIndex - 1]])
      else hash([VerifyPathC(hash, bitmap, key, leafHash, ap, length, keyIndex + 1, apIndex), DEFAULT_LEAF])
  }

  /** How many of the first n bits are set: how many nodes the verifier will take. */
  function Marked(bitmap: seq<Byte>, n: nat): nat
    requires n <= 8 * |bitmap|
  {
    if n == 0 then 0 else Marked(bitmap, n - 1) + if BitIsSet(bitmap, n - 1) then 1 else 0
  }

  lemma {:induction false} MarkedCounts(bitmap: seq<Byte>, ap: seq<seq<Byte>>, n: nat)
    requires Marks(bitmap, ap) && n <= |ap|
    ensures Marked(bitmap, n) == |Survivors(ap[..n])|
    ensures Survivors(ap[..n]) <= Survivors(ap)
    decreases |ap| - n, n
  {
    SurvivorsPrefix(ap, n);
    if n > 0 {
      MarkedDown(bitmap, ap, n);
    }
  }

  lemma {:induction false} MarkedDown(bitmap: seq<Byte>, ap: seq<seq<Byte>>, n: nat)
    requires Marks(bitmap, ap) && n <= |ap|
    ensures Marked(bitmap, n) == |Survivors(ap[..n])|
  {
    if n > 0 {
      MarkedDown(bitmap, ap, n - 1);
      assert ap[..n][..n - 1] == ap[..n - 1];
    }
  }

  lemma {:induction false} SurvivorsPrefix(ap: seq<seq<Byte>>, n: nat)
    requires n <= |ap|
    ensures Survivors(ap[..n]) <= Survivors(ap)
  {
    if n < |ap| {
      SurvivorsPrefix(ap[..|ap| - 1], n);
      assert ap[..|ap| - 1][..n] == ap[..n];
    } else {
      assert ap[..n] == ap;
    }
  }

  /** The node that the compressed verifier takes at a level is the one of the full path. */
  lemma TakenNode(bitmap: seq<Byte>, ap: seq<seq<Byte>>, n: nat)
    requires Marks(bitmap, ap) && 0 < n <= |ap|
    ensures Marked(bitmap, n) <= |Survivors(ap)|
    ensures if BitIsSet(bitmap, n - 1)
            then Marked(bitmap, n) == Marked(bitmap, n - 1) + 1 && Survivors(ap)[Marked(bitmap, n) - 1] == ap[n - 1]
            else Marked(bitmap, n) == Marked(bitmap, n - 1) && ap[n - 1] == DEFAULT_LEAF
  {
    hide BitIsSet;
    MarkedCounts(bitmap, ap, n);
    MarkedCounts(bitmap, ap, n - 1);
    assert ap[..n][..n - 1] == ap[..n - 1];
    if ap[n - 1] != DEFAULT_LEAF {
      assert Survivors(ap[..n])[Marked(bitmap, n - 1)] == ap[n - 1];
    }
  }

  /** The full path that a bitmap and a list stand for: the list is taken from its end, the path from the root. */
  function Expand(bitmap: seq<Byte>, ap: seq<seq<Byte>>, length: nat): (r: seq<seq<Byte>>)
    requires length <= 8 * |bitmap| && Marked(bitmap, length) <= |ap|
    ensures |r| == length
  {
    seq(length, i requires 0 <= i < length =>
      MarkedUp(bitmap, i, length);
      if BitIsSet(bitmap, i) then ap[|ap| - Marked(bitmap, length) + Marked(bitmap, i)] else DEFAULT_LEAF)
  }

  lemma {:induction false} MarkedUp(bitmap: seq<Byte>, i: nat, n: nat)
    requires i <= n <= 8 * |bitmap|
    ensures Marked(bitmap, i) <= Marked(bitmap, n)
    ensures i < n && BitIsSet(bitmap, i) ==> Marked(bitmap, i) < Marked(bitmap, n)
    decreases n
  {
    hide BitIsSet;
    if i < n { MarkedUp(bitmap, i, n - 1); }
  }

  /** The compressed verifier computes what the full one computes from the expanded path, for every bitmap and list. */
  lemma {:induction false} FoldExpanded(hash: Hash, bitmap: seq<Byte>, ap: seq<seq<Byte>>, length: nat, key: Key,
          leafHash: seq<Byte>, keyIndex: nat)
    requires keyIndex <= length <= BITS && length <= 8 * |bitmap| && Marked(bitmap, length) <= |ap|
    ensures Marked(bitmap, length - keyIndex) <= Marked(bitmap, length)
    ensures VerifyPathC(hash, bitmap, key, leafHash, ap, length, keyIndex,
              Marked(bitmap, length) - Marked(bitmap, length - keyIndex)) ==
            VerifyPath(hash, Expand(bitmap, ap, length), keyIndex, key, leafHash)
    decreases length - keyIndex
  {
    hide BitIsSet, Marked, Expand;
    MarkedUp(bitmap, length - keyIndex, length);
    if keyIndex < length {
      FoldExpanded(hash, bitmap, ap, length, key, leafHash, keyIndex + 1);
      ExpandedNode(bitmap, ap, length, length - keyIndex - 1);
    }
  }

  lemma ExpandedNode(bitmap: seq<Byte>, ap: seq<seq<Byte>>, length: nat, i: nat)
    requires i < length <= 8 * |bitmap| && Marked(bitmap, length) <= |ap|
    ensures Marked(bitmap, i + 1) <= Marked(bitmap, length)
    ensures if BitIsSet(bitmap, i)
            then Marked(bitmap, i + 1) == Marked(bitmap, i) + 1
                 && Expand(bitmap, ap, length)[i] == ap[|ap| - (Marked(bitmap, length) - Marked(bitmap, i + 1)) - 1]
            else Marked(bitmap, i + 1) == Marked(bitmap, i) && Expand(bitmap, ap, length)[i] == DEFAULT_LEAF
  {
    hide BitIsSet;
    MarkedUp(bitmap, i + 1, length);
  }

  /** Compressing and expanding gives the path back. */
  lemma ExpandsBack(bitmap: seq<Byte>, ap: seq<seq<Byte>>)
    requires Marks(bitmap, ap)
    ensures Marked(bitmap, |ap|) == |Survivors(ap)|
    ensures Expand(bitmap, Survivors(ap), |ap|) == ap
  {
    hide BitIsSet, Survivors, Marked;
    MarkedCounts(bitmap, ap, |ap|);
    assert ap[..|ap|] == ap;
    forall i | 0 <= i < |ap| ensures Expand(bitmap, Survivors(ap), |ap|)[i] == ap[i] {
      TakenNode(bitmap, ap, i + 1);
      ExpandedNode(bitmap, Survivors(ap), |ap|, i);
    }
  }

  /** Compressing loses nothing: the verifier computes the same digest from the bitmap and the surviving nodes. */
  lemma CompressionExact(hash: Hash, bitmap: seq<Byte>, ap: seq<seq<Byte>>, key: Key, leafHash: seq<Byte>,
          keyIndex: nat)
    requires Marks(bitmap, ap) && keyIndex <= |ap| <= BITS
    ensures var mp, taken := Survivors(ap), |Survivors(ap)| - Marked(bitmap, |ap| - keyIndex);
            && Marked(bitmap, |ap| - keyIndex) <= |mp|
            && VerifyPathC(hash, bitmap, key, leafHash, mp, |ap|, keyIndex, taken) ==
              VerifyPath(hash, ap, keyIndex, key, leafHash)
  {
    hide BitIsSet, Survivors, Marked, Expand, VerifyPath, VerifyPathC;
    ExpandsBack(bitmap, ap);
    FoldExpanded(hash, bitmap, Survivors(ap), |ap|, key, leafHash, keyIndex);
  }

  /** `VerifyInclusionC` */
  predicate VerifyInclusionC(hash: Hash, root: Option<Digest>, bitmap: seq<Byte>, key: Key, value: Value,
          ap: seq<seq<Byte>>, length: nat)
    requires length <= BITS && length <= 8 * |bitmap| && Marked(bitmap, length) <= |ap|
  {
    RootIs(root, VerifyPathC(hash, bitmap, key, hash([key, value, [HeightTag(BITS - length)]]), ap, length, 0, 0))
  }

  /** Whatever bitmap and list are handed in, they are accepted exactly when the path that they stand for is. */
  lemma InclusionExpanded(hash: Hash, root: Option<Digest>, bitmap: seq<Byte>, ap: seq<seq<Byte>>, length: nat,
          key: Key, value: Value)
    requires length <= BITS && length <= 8 * |bitmap| && Marked(bitmap, length) <= |ap|
    ensures VerifyInclusionC(hash, root, bitmap, key, value, ap, length) <==>
            VerifyInclusion(hash, root, Expand(bitmap, ap, length), key, value)
  {
    hide Marked, Expand, VerifyPath, VerifyPathC;
    FoldExpanded(hash, bitmap, ap, length, key, hash([key, value, [HeightTag(BITS - length)]]), 0);
  }

  /** The compressed proof is accepted exactly when the full one is. */
  lemma CompressedInclusion(hash: Hash, root: Option<Digest>, bitmap: seq<Byte>, ap: seq<seq<Byte>>, key: Key,
          value: Value)
    requires Marks(bitmap, ap) && |ap| <= BITS
    ensures Marked(bitmap, |ap|) == |Survivors(ap)|
    ensures VerifyInclusionC(hash, root, bitmap, key, value, Survivors(ap), |ap|) <==>
            VerifyInclusion(hash, root, ap, key, value)
  {
    hide BitIsSet, Survivors, Marked, Expand, VerifyInclusion, VerifyInclusionC;
    ExpandsBack(bitmap, ap);
    InclusionExpanded(hash, root, bitmap, Survivors(ap), |ap|, key, value);
  }

  /** `VerifyNonInclusionC`, with the loop over the bits as a quantifier. */
  ghost predicate NonInclusionHoldsC(hash: Hash, root: Option<Digest>, ap: seq<seq<Byte>>, length: nat,
          bitmap: seq<Byte>,
                                     key: Key, value: Value, proofKey: Option<Key>)
    requires length <= BITS && length <= 8 * |bitmap| && Marked(bitmap, length) <= |ap|
  {
    match proofKey
    case None => RootIs(root, VerifyPathC(hash, bitmap, key, DEFAULT_LEAF, ap, length, 0, 0))
    case Some(other) => VerifyInclusionC(hash, root, bitmap, other, value, ap, length) && SameBits(key, other, length)
  }

  method VerifyNonInclusionC(hash: Hash, root: Option<Digest>, ap: seq<seq<Byte>>, length: nat, bitmap: seq<Byte>,
                             key: Key, value: Value, proofKey: Option<Key>) returns (ok: bool)
    requires length <= BITS && length <= 8 * |bitmap| && Marked(bitmap, length) <= |ap|
    ensures ok <==> NonInclusionHoldsC(hash, root, ap, length, bitmap, key, value, proofKey)
  {
    if proofKey == None {
      return RootIs(root, VerifyPathC(hash, bitmap, key, DEFAULT_LEAF, ap, length, 0, 0));
    }
    if !VerifyInclusionC(hash, root, bitmap, proofKey.value, value, ap, length) {
      return false;
    }
    for b := 0 to length
      invariant SameBits(key, proofKey.value, b)
    {
      if BitIsSet(key, b) != BitIsSet(proofKey.value, b) {
        return false;
      }
    }
    return true;
  }

  lemma NonInclusionExpanded(hash: Hash, root: Option<Digest>, bitmap: seq<Byte>, ap: seq<seq<Byte>>, length: nat,
          key: Key, value: Value, proofKey: Option<Key>)
    requires length <= BITS && length <= 8 * |bitmap| && Marked(bitmap, length) <= |ap|
    ensures NonInclusionHoldsC(hash, root, ap, length, bitmap, key, value, proofKey) <==>
            NonInclusionHolds(hash, root, Expand(bitmap, ap, length), key, value, proofKey)
  {
    hide Marked, Expand, VerifyPath, VerifyPathC, SameBits, VerifyInclusion, VerifyInclusionC;
    match proofKey
    case None => FoldExpanded(hash, bitmap, ap, length, key, DEFAULT_LEAF, 0);
    case Some(other) => InclusionExpanded(hash, root, bitmap, ap, length, other, value);
  }

  /** The compressed proof of non-inclusion is accepted exactly when the full one is. */
  lemma CompressedNonInclusion(hash: Hash, root: Option<Digest>, bitmap: seq<Byte>, ap: seq<seq<Byte>>, key: Key,
          value: Value, proofKey: Option<Key>)
    requires Marks(bitmap, ap) && |ap| <= BITS
    ensures Marked(bitmap, |ap|) == |Survivors(ap)|
    ensures NonInclusionHoldsC(hash, root, Survivors(ap), |ap|, bitmap, key, value, proofKey) <==>
            NonInclusionHolds(hash, root, ap, key, value, proofKey)
  {
    hide BitIsSet, Survivors, Marked, Expand, NonInclusionHolds, NonInclusionHoldsC;
    ExpandsBack(bitmap, ap);
    NonInclusionExpanded(hash, root, bitmap, Survivors(ap), |ap|, key, value, proofKey);
  }

  /** Soundness of compressed inclusion, for every bitmap and list that the verifier can read. */
  lemma CompressedInclusionSound(hash: Hash, P: iset<seq<seq<Byte>>>, m: Map, bitmap: seq<Byte>, ap: seq<seq<Byte>>,
          length: nat, key: Key, value: Value)
    returns (x: seq<seq<Byte>>, y: seq<seq<Byte>>)
    requires length <= BITS && length <= 8 * |bitmap| && Marked(bitmap, length) <= |ap| && NodesIn(hash, P, m, BITS)
    requires VerifyInclusionC(hash, RootOf(hash, m, BITS), bitmap, key, value, ap, length)
    requires var leaf := [key, value, [HeightTag(BITS - length)]];
             leaf in P && FoldIn(hash, P, Expand(bitmap, ap, length), 0, key, hash(leaf))
    ensures (key in m && m[key] == value) || (x in P && y in P && x != y && hash(x) == hash(y))
  {
    hide BitIsSet, Marked, Expand, VerifyInclusion, VerifyInclusionC, FoldIn, NodesIn, RootOf;
    InclusionExpanded(hash, RootOf(hash, m, BITS), bitmap, ap, length, key, value);
    x, y := InclusionSound(hash, P, m, Expand(bitmap, ap, length), key, value);
  }

  /** Soundness of compressed non-inclusion: right exactly when its leaf is not the key's own. */
  lemma CompressedNonInclusionSound(hash: Hash, P: iset<seq<seq<Byte>>>, m: Map, bitmap: seq<Byte>,
          ap: seq<seq<Byte>>, length: nat, key: Key, value: Value, proofKey: Option<Key>)
    returns (x: seq<seq<Byte>>, y: seq<seq<Byte>>)
    requires length <= BITS && length <= 8 * |bitmap| && Marked(bitmap, length) <= |ap| && NodesIn(hash, P, m, BITS)
    requires NonInclusionHoldsC(hash, RootOf(hash, m, BITS), ap, length, bitmap, key, value, proofKey)
    requires ProofIn(hash, P, Expand(bitmap, ap, length), key, value, proofKey)
    ensures (key !in m <==> proofKey != Some(key)) || (x in P && y in P && x != y && hash(x) == hash(y))
  {
    hide BitIsSet, Marked, Expand, NonInclusionHolds, NonInclusionHoldsC, ProofIn, NodesIn, RootOf;
    NonInclusionExpanded(hash, RootOf(hash, m, BITS), bitmap, ap, length, key, value, proofKey);
    x, y := NonInclusionSound(hash, P, m, Expand(bitmap, ap, length), key, value, proofKey);
  }
}
