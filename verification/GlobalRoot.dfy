/** The global root over the roots of all trees: an iterative Merkle fold with zero padding,
    the path of one root, and its verification.

    A parent hashes two 32-byte digests; the pair hash is any function.
 */
module GlobalRoot {
  import opened Words

  type Digest = Bytes32
  type PairHash = (Digest, Digest) -> Digest

  /** `[32]byte{}` */
  function Zero(): Digest {
    [0, 0, 0, 0, 0, 0, 0, 0, 0, 0, 0, 0, 0, 0, 0, 0,
     0, 0, 0, 0, 0, 0, 0, 0, 0, 0, 0, 0, 0, 0, 0, 0]
  }

  /** Position i of a level; beyond its end there is the zero digest. */
  function At(level: seq<Digest>, i: nat): Digest {
    if i < |level| then level[i] else Zero()
  }

  /** The level above. */
  function Up(h: PairHash, level: seq<Digest>): (up: seq<Digest>)
    ensures |up| == (|level| + 1) / 2
  {
    seq((|level| + 1) / 2, i requires 0 <= i => h(At(level, 2 * i), At(level, 2 * i + 1)))
  }

  lemma UpAt(h: PairHash, level: seq<Digest>, i: nat)
    requires i < (|level| + 1) / 2
    ensures Up(h, level)[i] == h(At(level, 2 * i), At(level, 2 * i + 1)) && At(level, 2 * i) == level[2 * i]
    ensures At(level, 2 * i + 1) == if 2 * i + 1 < |level| then level[2 * i + 1] else Zero()
  {
  }

  /** The root of a list of digests. */
  function Root(h: PairHash, level: seq<Digest>): Digest
    decreases |level|
  {
    if |level| == 0 then Zero() else if |level| == 1 then level[0] else Root(h, Up(h, level))
  }

  datatype Path = Path(hashes: seq<Digest>, isLeft: seq<bool>)

  /** The siblings from a position up to the root, with the side of the running digest. */
  function PathOf(h: PairHash, level: seq<Digest>, index: nat): (p: Path)
    ensures |p.hashes| == |p.isLeft|
    decreases |level|
  {
    if |level| <= 1 then Path([], []) else
      var rest := PathOf(h, Up(h, level), index / 2);
      if index % 2 == 0 then Path([At(level, index + 1)] + rest.hashes, [true] + rest.isLeft)
      else Path([At(level, index - 1)] + rest.hashes, [false] + rest.isLeft)
  }

  /** What `Verify` computes. */
  function Fold(h: PairHash, current: Digest, hashes: seq<Digest>, isLeft: seq<bool>): Digest
    requires |hashes| <= |isLeft|
    decreases |hashes|
  {
    if hashes == [] then current
    else Fold(h, if isLeft[0] then h(current, hashes[0]) else h(hashes[0], current), hashes[1..], isLeft[1..])
  }

  /** `computeMerkleRoot` */
  method ComputeMerkleRoot(h: PairHash, hashes: seq<Digest>) returns (root: Digest)
    ensures root == Root(h, hashes)
  {
    hide Zero, Up, At;
    if |hashes| == 0 {
      return Zero();
    }
    if |hashes| == 1 {
      return hashes[0];
    }
    var currentLevel: seq<Digest> := hashes;
    while |currentLevel| > 1
      invariant |currentLevel| >= 1 && Root(h, currentLevel) == Root(h, hashes)
      decreases |currentLevel|
    {
      var nextLevel: seq<Digest> := [];
      var i := 0;
      while i < |currentLevel|
        invariant i == 2 * |nextLevel| && |nextLevel| <= (|currentLevel| + 1) / 2
        invariant nextLevel == Up(h, currentLevel)[..|nextLevel|]
      {
        var right: Digest := if i + 1 < |currentLevel| then currentLevel[i + 1] else Zero();
        UpAt(h, currentLevel, |nextLevel|);
        nextLevel := nextLevel + [h(currentLevel[i], right)];
        i := i + 2;
      }
      assert nextLevel == Up(h, currentLevel);
      currentLevel := nextLevel;
    }
    return currentLevel[0];
  }

  /** One level of `computeProofPath`: the parents, and the sibling at the pair of the index. */
  method ClimbLevel(h: PairHash, level: seq<Digest>, index: nat)
    returns (nextLevel: seq<Digest>, sibling: Digest, left: bool)
    requires |level| > 1 && index < |level|
    ensures nextLevel == Up(h, level)
    ensures left <==> index % 2 == 0
    ensures sibling ==
            if index % 2 == 1 then level[index - 1] else if index + 1 < |level| then level[index + 1] else Zero()
  {
    hide Zero, Up, At;
    nextLevel, sibling, left := [], level[0], false;
    var i, pair := 0, index - index % 2;
    while i < |level|
      invariant i == 2 * |nextLevel| && |nextLevel| <= (|level| + 1) / 2
      invariant nextLevel == Up(h, level)[..|nextLevel|]
      invariant i > pair ==> left == (index % 2 == 0)
      invariant i > pair ==>
        sibling == if index % 2 == 1 then level[pair] else if pair + 1 < |level| then level[pair + 1] else Zero()
    {
      UpAt(h, level, |nextLevel|);
      var leftHash: Digest := level[i];
      var rightHash: Digest := if i + 1 < |level| then level[i + 1] else Zero();
      if i == pair {
        left := index % 2 == 0;
        sibling := if left then rightHash else leftHash;
      }
      nextLevel := nextLevel + [h(leftHash, rightHash)];
      i := i + 2;
    }
  }

  /** `computeProofPath` */
  method ComputeProofPath(h: PairHash, hashes: seq<Digest>, targetIndex: nat)
    returns (proofPath: seq<Digest>, isLeft: seq<bool>)
    requires targetIndex < |hashes|
    ensures Path(proofPath, isLeft) == PathOf(h, hashes, targetIndex)
  {
    hide Zero, Up, At, PathOf;
    proofPath, isLeft := [], [];
    var currentLevel: seq<Digest>, currentIndex: nat := hashes, targetIndex;
    while |currentLevel| > 1
      invariant currentIndex < |currentLevel|
      invariant PathOf(h, hashes, targetIndex) == Joined(proofPath, isLeft, PathOf(h, currentLevel, currentIndex))
      decreases |currentLevel|
    {
      PathHead(h, currentLevel, currentIndex);
      PathStep(h, currentLevel, currentIndex);
      var nextLevel, sibling, left := ClimbLevel(h, currentLevel, currentIndex);
      JoinedStep(proofPath, isLeft, sibling, left, PathOf(h, nextLevel, currentIndex / 2));
      proofPath, isLeft := proofPath + [sibling], isLeft + [left];
      currentLevel, currentIndex := nextLevel, currentIndex / 2;
    }
    PathTop(h, currentLevel);
    assert proofPath + [] == proofPath && isLeft + [] == isLeft;
  }

  function Joined(hashes: seq<Digest>, isLeft: seq<bool>, rest: Path): Path {
    Path(hashes + rest.hashes, isLeft + rest.isLeft)
  }

  lemma JoinedStep(hashes: seq<Digest>, isLeft: seq<bool>, sibling: Digest, left: bool, rest: Path)
    ensures Joined(hashes + [sibling], isLeft + [left], rest) ==
      Joined(hashes, isLeft, Path([sibling] + rest.hashes, [left] + rest.isLeft))
  {
    assert hashes + [sibling] + rest.hashes == hashes + ([sibling] + rest.hashes);
    assert isLeft + [left] + rest.isLeft == isLeft + ([left] + rest.isLeft);
  }

  lemma PathStep(h: PairHash, level: seq<Digest>, index: nat)
    requires |level| > 1
    ensures var p, rest := PathOf(h, level, index), PathOf(h, Up(h, level), index / 2);
            && p.hashes == [p.hashes[0]] + rest.hashes && p.isLeft == [p.isLeft[0]] + rest.isLeft
            && p.hashes[1..] == rest.hashes && p.isLeft[1..] == rest.isLeft
  {
  }

  lemma PathTop(h: PairHash, level: seq<Digest>)
    requires |level| == 1
    ensures PathOf(h, level, 0) == Path([], [])
  {
  }

  /** The first digest of a path is the sibling, the zero digest when there is none. */
  lemma PathHead(h: PairHash, level: seq<Digest>, index: nat)
    requires |level| > 1 && index < |level|
    ensures var p := PathOf(h, level, index);
            && p.hashes != [] && p.isLeft[0] == (index % 2 == 0)
            && p.hashes[0] ==
               if index % 2 == 1 then level[index - 1] else if index + 1 < |level| then level[index + 1] else Zero()
  {
  }

  /** `MerkleProof` */
  datatype MerkleProof = MerkleProof(treeRoot: Digest, proofPath: seq<Digest>, isLeft: seq<bool>, globalRoot: Digest)

  /** `Verify`.  A flag is read for every digest of the path. */
  method Verify(h: PairHash, proof: MerkleProof) returns (ok: bool)
    requires |proof.proofPath| <= |proof.isLeft|
    ensures ok <==> Fold(h, proof.treeRoot, proof.proofPath, proof.isLeft) == proof.globalRoot
  {
    var currentHash: Digest := proof.treeRoot;
    for i := 0 to |proof.proofPath|
      invariant Fold(h, currentHash, proof.proofPath[i..], proof.isLeft[i..]) ==
        Fold(h, proof.treeRoot, proof.proofPath, proof.isLeft)
    {
      currentHash := if proof.isLeft[i] then h(currentHash, proof.proofPath[i]) else h(proof.proofPath[i], currentHash);
      assert proof.proofPath[i..][1..] == proof.proofPath[i + 1..] && proof.isLeft[i..][1..] == proof.isLeft[i + 1..];
    }
    return currentHash == proof.globalRoot;
  }

  // ---------------------------------------------------------------- completeness

  /** Folding the path of a position from its digest gives the root, on odd levels too. */
  lemma {:induction false} PathFolds(h: PairHash, level: seq<Digest>, index: nat)
    requires index < |level|
    ensures var p := PathOf(h, level, index); Fold(h, level[index], p.hashes, p.isLeft) == Root(h, level)
    decreases |level|
  {
    hide Zero, Up, At, PathOf;
    if |level| == 1 {
      PathTop(h, level);
    } else {
      PathHead(h, level, index);
      UpAt(h, level, index / 2);
      PathStep(h, level, index);
      PathFolds(h, Up(h, level), index / 2);
      var p := PathOf(h, level, index);
      assert (if p.isLeft[0] then h(level[index], p.hashes[0]) else h(p.hashes[0], level[index])) ==
        Up(h, level)[index / 2];
    }
  }

  /** `ceil(log2 n)` */
  ghost predicate IsCeilLog2(k: nat, n: nat) {
    n <= Pow2(k) && (k > 0 ==> Pow2(k - 1) < n)
  }

  /** The path has one digest per level. */
  lemma {:induction false} PathLength(h: PairHash, level: seq<Digest>, index: nat)
    requires index < |level|
    ensures IsCeilLog2(|PathOf(h, level, index).hashes|, |level|)
    decreases |level|
  {
    hide Zero, Up, At;
    if |level| > 1 {
      PathStep(h, level, index);
      PathLength(h, Up(h, level), index / 2);
    }
  }

  // ---------------------------------------------------------------- the tree from above

  lemma ZeroBytes()
    ensures Zero() == seq(32, _ => 0)
  {
  }

  /** Two digests are hashed left before right; a third one is hashed with zeros first. */
  lemma SmallRoots(h: PairHash, a: Digest, b: Digest, c: Digest)
    ensures Root(h, [a]) == a && Root(h, [a, b]) == h(a, b)
    ensures Root(h, [a, b, c]) == h(h(a, b), h(c, seq(32, _ => 0)))
  {
    hide Zero;
    ZeroBytes();
    var ab, cz := h(a, b), h(c, Zero());
    assert Up(h, [a, b]) == [ab] && Up(h, [a, b, c]) == [ab, cz] && Up(h, [ab, cz]) == [h(ab, cz)];
    assert Root(h, [a, b, c]) == Root(h, [ab, cz]) == Root(h, [h(ab, cz)]);
  }

  /** The other one of two children. */
  function Sibling(place: nat): nat {
    if place % 2 == 0 then place + 1 else place - 1
  }

  /** The node at a height and a position, over 2^height places of the list; a node over none of its digests is zero. */
  function Node(h: PairHash, list: seq<Digest>, height: nat, i: nat): Digest
    decreases height, list
  {
    if i * Pow2(height) >= |list| then Zero()
    else if height == 0 then list[i]
    else h(Node(h, list, height - 1, 2 * i), Node(h, list, height - 1, 2 * i + 1))
  }

  /** One level up in the list is one level down in the tree. */
  lemma {:induction false} NodeUp(h: PairHash, list: seq<Digest>, height: nat, i: nat)
    ensures Node(h, list, height + 1, i) == Node(h, Up(h, list), height, i)
    decreases height
  {
    hide Up, At;
    assert Pow2(height + 1) == 2 * Pow2(height);
    Doubled(i, Pow2(height), |list|);
    if i * Pow2(height + 1) < |list| {
      if height == 0 {
        UpAt(h, list, i);
        assert Node(h, list, 0, 2 * i) == list[2 * i];
        assert Node(h, list, 0, 2 * i + 1) == if 2 * i + 1 < |list| then list[2 * i + 1] else Zero();
      } else {
        NodeUp(h, list, height - 1, 2 * i);
        NodeUp(h, list, height - 1, 2 * i + 1);
      }
    }
  }

  lemma Doubled(i: nat, p: nat, n: nat)
    ensures i * (2 * p) == 2 * (i * p)
    ensures i * (2 * p) >= n <==> i * p >= (n + 1) / 2
  {
  }

  /** The root is the top of the tree whose leaves are the list, left before right, with zeros where nothing is. */
  lemma {:induction false} RootIsTop(h: PairHash, list: seq<Digest>, height: nat)
    requires IsCeilLog2(height, |list|)
    ensures Root(h, list) == Node(h, list, height, 0)
    decreases |list|
  {
    hide Up;
    if |list| > 1 {
      RootIsTop(h, Up(h, list), height - 1);
      NodeUp(h, list, height - 1, 0);
    }
  }

  /** Which node of level k is over this place. */
  function Above(index: nat, k: nat): nat {
    if k == 0 then index else Above(index / 2, k - 1)
  }

  /** The digest is the sibling of the index on level k, and comes on the other side. */
  predicate IsSibling(h: PairHash, list: seq<Digest>, index: nat, k: nat, sibling: Digest, left: bool) {
    var place := Above(index, k);
    (left <==> place % 2 == 0) && sibling == Node(h, list, k, Sibling(place))
  }

  /** The path has the sibling on every level of that tree, and the side on which the path itself comes. */
  lemma {:induction false} PathIsSiblings(h: PairHash, list: seq<Digest>, index: nat, k: nat)
    requires index < |list| && k < |PathOf(h, list, index).hashes|
    ensures var p := PathOf(h, list, index); IsSibling(h, list, index, k, p.hashes[k], p.isLeft[k])
    decreases k
  {
    hide Up, At, Zero, PathOf, IsSibling;
    PathNotTop(h, list, index);
    if k == 0 {
      FirstSibling(h, list, index);
    } else {
      var p := PathOf(h, list, index);
      PathStep(h, list, index);
      PathIsSiblings(h, Up(h, list), index / 2, k - 1);
      SiblingAbove(h, list, index, k, p.hashes[k], p.isLeft[k]);
    }
  }

  lemma SiblingAbove(h: PairHash, list: seq<Digest>, index: nat, k: nat, sibling: Digest, left: bool)
    requires k > 0 && IsSibling(h, Up(h, list), index / 2, k - 1, sibling, left)
    ensures IsSibling(h, list, index, k, sibling, left)
  {
    hide Up, Node, Sibling;
    NodeUp(h, list, k - 1, Sibling(Above(index, k)));
  }

  lemma PathNotTop(h: PairHash, list: seq<Digest>, index: nat)
    requires index < |list| && PathOf(h, list, index).hashes != []
    ensures |list| > 1
  {
  }

  lemma FirstSibling(h: PairHash, list: seq<Digest>, index: nat)
    requires index < |list| && |list| > 1
    ensures var p := PathOf(h, list, index); p.hashes != [] && IsSibling(h, list, index, 0, p.hashes[0], p.isLeft[0])
  {
    hide Up, At, Zero, PathOf;
    PathHead(h, list, index);
    assert Node(h, list, 0, Sibling(index)) == if Sibling(index) < |list| then list[Sibling(index)] else Zero();
  }

  // ---------------------------------------------------------------- binding

  /** Every pair hashed on the way to the root is in P. */
  ghost predicate PairsIn(h: PairHash, P: iset<(Digest, Digest)>, level: seq<Digest>)
    decreases |level|
  {
    |level| > 1 ==>
      && (forall i :: 0 <= i < |Up(h, level)| ==> (At(level, 2 * i), At(level, 2 * i + 1)) in P)
      && PairsIn(h, P, Up(h, level))
  }

  ghost predicate Collides(h: PairHash, P: iset<(Digest, Digest)>, x: (Digest, Digest), y: (Digest, Digest)) {
    x in P && y in P && x != y && h(x.0, x.1) == h(y.0, y.1)
  }

  /** Lists of one length with one root are one list, or two of the hashed pairs collide. */
  lemma {:induction false} Binding(h: PairHash, P: iset<(Digest, Digest)>, a: seq<Digest>, b: seq<Digest>)
    returns (x: (Digest, Digest), y: (Digest, Digest))
    requires |a| == |b| && PairsIn(h, P, a) && PairsIn(h, P, b) && Root(h, a) == Root(h, b)
    ensures a == b || Collides(h, P, x, y)
    decreases |a|
  {
    hide Zero, Up;
    x, y := (Zero(), Zero()), (Zero(), Zero());
    if |a| > 1 {
      x, y := Binding(h, P, Up(h, a), Up(h, b));
      if !Collides(h, P, x, y) && a != b {
        var i :| 0 <= i < |a| && a[i] != b[i];
        var j := i / 2;
        x, y := (At(a, 2 * j), At(a, 2 * j + 1)), (At(b, 2 * j), At(b, 2 * j + 1));
        UpAt(h, a, j);
        UpAt(h, b, j);
      }
    }
  }

  /** Lengths have to agree: an odd list and the same list with a zero digest appended have one root. */
  lemma PaddingTwin(h: PairHash, level: seq<Digest>)
    requires |level| > 1 && |level| % 2 == 1
    ensures Root(h, level + [Zero()]) == Root(h, level)
  {
    hide Zero;
    var longer := level + [Zero()];
    forall i | 0 <= i < |Up(h, level)| ensures Up(h, longer)[i] == Up(h, level)[i] {
      UpAt(h, level, i);
      UpAt(h, longer, i);
    }
    assert Up(h, longer) == Up(h, level);
  }

  /** The position that the side flags describe. */
  function IndexOf(isLeft: seq<bool>): nat {
    if isLeft == [] then 0 else (if isLeft[0] then 0 else 1) + 2 * IndexOf(isLeft[1..])
  }

  /** Every pair that the fold hashes is in P. */
  ghost predicate FoldIn(h: PairHash, P: iset<(Digest, Digest)>, current: Digest, hashes: seq<Digest>,
          isLeft: seq<bool>)
    requires |hashes| == |isLeft|
    decreases |hashes|
  {
    hashes != [] ==>
      var pair := if isLeft[0] then (current, hashes[0]) else (hashes[0], current);
      pair in P && FoldIn(h, P, h(pair.0, pair.1), hashes[1..], isLeft[1..])
  }

  /** Soundness: a path of the right length that folds to the root starts from what is at the position its flags
      describe, or two hashed pairs collide, or a hashed pair gives the zero digest. */
  lemma {:induction false} VerifySound(h: PairHash, P: iset<(Digest, Digest)>, level: seq<Digest>, current: Digest,
          hashes: seq<Digest>, isLeft: seq<bool>)
    returns (x: (Digest, Digest), y: (Digest, Digest))
    requires |level| >= 1 && |hashes| == |isLeft| && IsCeilLog2(|hashes|, |level|)
    requires PairsIn(h, P, level) && FoldIn(h, P, current, hashes, isLeft)
    requires Fold(h, current, hashes, isLeft) == Root(h, level)
    ensures current == At(level, IndexOf(isLeft)) || Collides(h, P, x, y) || (x in P && h(x.0, x.1) == Zero())
    decreases |hashes|
  {
    hide Zero, Up;
    x, y := (Zero(), Zero()), (Zero(), Zero());
    if hashes != [] {
      var pair := if isLeft[0] then (current, hashes[0]) else (hashes[0], current);
      var up, j := Up(h, level), IndexOf(isLeft[1..]);
      assert |level| > 1;
      x, y := VerifySound(h, P, up, h(pair.0, pair.1), hashes[1..], isLeft[1..]);
      if !Collides(h, P, x, y) && !(x in P && h(x.0, x.1) == Zero()) {
        x := pair;
        if j < |up| {
          UpAt(h, level, j);
          y := (At(level, 2 * j), At(level, 2 * j + 1));
        }
      }
    }
  }
}
