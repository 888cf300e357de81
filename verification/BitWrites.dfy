/** The writes of an update in smt-v2: in key order, split at a node, joined by a shortcut that is pushed down. */
module BitWrites {
  import opened Words
  import opened BitKeys
  import opened BitTreeModel
  import opened BitDatabase

  function KeysOf(kv: seq<KV>): set<Key> {
    set i | 0 <= i < |kv| :: kv[i].k
  }

  /** What `update` is called with when one key is updated: that key, or that key and the key of a shortcut that
      it pushes down into an empty subtree. */
  ghost predicate Writable(kv: seq<KV>, m: Map, height: nat) {
    && 1 <= |kv| <= 2 && (|kv| == 2 ==> m == map[] && Less(kv[0].k, kv[1].k))
    && height <= BITS && Agree(m.Keys + KeysOf(kv), BITS - height)
  }

  lemma KeysHave(kv: seq<KV>, i: nat)
    requires i < |kv|
    ensures kv[i].k in KeysOf(kv)
  {
  }

  /** Strictly increasing keys. */
  ghost predicate InKeyOrder(kv: seq<KV>) {
    forall i, j :: 0 <= i < j < |kv| ==> Less(kv[i].k, kv[j].k)
  }

  lemma ApplyOfOne(m: Map, w: KV)
    ensures Apply(m, [w]) == ApplyOne(m, w) && KeysOf([w]) == {w.k}
  {
    assert [w][1..] == [];
  }

  lemma ApplyNone(m: Map)
    ensures Apply(m, []) == m && KeysOf([]) == {}
  {
  }

  lemma {:induction false} ApplyKeys(m: Map, kv: seq<KV>)
    ensures Apply(m, kv).Keys <= m.Keys + KeysOf(kv)
    decreases |kv|
  {
    if kv != [] {
      ApplyKeys(ApplyOne(m, kv[0]), kv[1..]);
      assert kv[0].k in KeysOf(kv);
      forall k | k in KeysOf(kv[1..]) ensures k in KeysOf(kv) {
        var i :| 0 <= i < |kv[1..]| && kv[1..][i].k == k;
        assert kv[i + 1].k == k;
      }
    }
  }

  lemma WritablePlaced(kv: seq<KV>, m: Map, height: nat)
    requires Writable(kv, m, height)
    ensures Placed(m, height) && Placed(Apply(m, kv), height)
  {
    hide SameBits, KeysOf, Apply;
    ApplyKeys(m, kv);
  }

  lemma WritableOrder(kv: seq<KV>, m: Map, height: nat)
    requires Writable(kv, m, height)
    ensures InKeyOrder(kv) && height <= BITS && Agree(KeysOf(kv), BITS - height)
  {
    hide Less, KeysOf, SameBits;
  }

  lemma OneNotInside(kv: seq<KV>, key: Key)
    requires |kv| == 1
    ensures InKeyOrder(kv) && !DeletedInside(kv, key)
  {
  }

  lemma WritableShort(kv: seq<KV>, m: Map, height: nat)
    requires Writable(kv, m, height)
    ensures 1 <= |kv| <= 2 && height <= BITS && (|kv| == 2 ==> m == map[])
  {
  }

  lemma AgreePart(keys: set<Key>, part: set<Key>, d: nat)
    requires d <= BITS && Agree(keys, d) && part <= keys
    ensures Agree(part, d)
  {
  }

  /** The writes of one side are writable there. */
  lemma GoingWritable(kv: seq<KV>, m: Map, height: nat, right: bool)
    requires Writable(kv, m, height) && height > 0 && Going(kv, BITS - height, right) != []
    ensures Writable(Going(kv, BITS - height, right), Half(m, BITS - height, right), height - 1)
  {
    hide SameBits, BitIsSet, Going, KeysOf, Agree;
    var d := BITS - height;
    var going, s := Going(kv, d, right), Half(m, d, right);
    GoingKeys(kv, d, right);
    GoingKeysOf(kv, d, right);
    var keys := s.Keys + KeysOf(going);
    AgreePart(m.Keys + KeysOf(kv), keys, d);
    HalfAgree(keys, d, right);
  }

  lemma GoingKeysOf(kv: seq<KV>, d: nat, right: bool)
    requires d < BITS && |kv| <= 2
    ensures KeysOf(Going(kv, d, right)) <= KeysOf(kv)
      && forall k :: k in KeysOf(Going(kv, d, right)) ==> BitIsSet(k, d) == right
  {
    hide Going, BitIsSet;
    GoingKeys(kv, d, right);
    var going := Going(kv, d, right);
    forall i | 0 <= i < |going| ensures going[i].k in KeysOf(kv) {
      var j :| 0 <= j < |kv| && kv[j] == going[i];
      KeysHave(kv, j);
    }
  }

  lemma GoingOne(a: KV, d: nat)
    requires d < BITS
    ensures forall right :: Going([a], d, right) == if BitIsSet(a.k, d) == right then [a] else []
  {
    assert [a][1..] == [];
  }

  lemma GoingTwo(a: KV, b: KV, d: nat)
    requires d < BITS
    ensures forall right ::
      Going([a, b], d, right) ==
        (if BitIsSet(a.k, d) == right then [a] else []) + (if BitIsSet(b.k, d) == right then [b] else [])
  {
    hide BitIsSet;
    assert [a, b][1..] == [b];
    GoingOne(b, d);
  }

  lemma GoingKeys(kv: seq<KV>, d: nat, right: bool)
    requires d < BITS && |kv| <= 2
    ensures forall i :: 0 <= i < |Going(kv, d, right)| ==>
      BitIsSet(Going(kv, d, right)[i].k, d) == right && Going(kv, d, right)[i] in kv
    ensures |Going(kv, d, right)| == 2 ==> Going(kv, d, right) == kv
    ensures Going(kv, d, false) == [] ==> Going(kv, d, true) == kv
    ensures Going(kv, d, true) == [] ==> Going(kv, d, false) == kv
    ensures |Going(kv, d, false)| + |Going(kv, d, true)| == |kv|
  {
    hide BitIsSet, Going;
    if |kv| == 1 {
      GoingOne(kv[0], d);
      assert kv == [kv[0]];
    } else if |kv| == 2 {
      GoingTwo(kv[0], kv[1], d);
      assert kv == [kv[0], kv[1]];
    } else {
      assert Going([], d, false) == Going([], d, true) == [];
    }
  }

  /** What the split does to the maps and the writes. */
  lemma SplitFacts(kv: seq<KV>, m: Map, height: nat)
    requires 0 < height && Writable(kv, m, height)
    ensures var d := BITS - height; var l, r := Going(kv, d, false), Going(kv, d, true);
            && |l| + |r| == |kv|
            && Half(Apply(m, kv), d, false) == Apply(Half(m, d, false), l)
              && Half(Apply(m, kv), d, true) == Apply(Half(m, d, true), r)
            && (l != [] ==> Writable(l, Half(m, d, false), height - 1))
            && (r != [] ==> Writable(r, Half(m, d, true), height - 1))
  {
    hide Writable;
    var d := BITS - height;
    WritableShort(kv, m, height);
    GoingKeys(kv, d, false);
    ApplyHalf(m, kv, d, false);
    ApplyHalf(m, kv, d, true);
    if Going(kv, d, false) != [] { GoingWritable(kv, m, height, false); }
    if Going(kv, d, true) != [] { GoingWritable(kv, m, height, true); }
  }

  /** Two sides from which nothing was deleted leave two keys or more. */
  lemma TwoRemain(m: Map, m': Map, kv: seq<KV>, l: seq<KV>, r: seq<KV>, d: nat)
    requires d < BITS && |l| + |r| == |kv| && (|m| >= 2 || |kv| == 2)
    requires |Half(m', d, false)| >= 2 || (|Half(m', d, false)| >= |Half(m, d, false)| && |Half(m', d, false)| >= |l|)
    requires |Half(m', d, true)| >= 2 || (|Half(m', d, true)| >= |Half(m, d, true)| && |Half(m', d, true)| >= |r|)
    ensures |m'| >= 2
  {
    hide Half;
    HalvesJoin(m, d);
    HalvesJoin(m', d);
  }

  lemma {:induction false} GoingNone(kv: seq<KV>, d: nat, right: bool)
    requires d < BITS && forall i :: 0 <= i < |kv| ==> BitIsSet(kv[i].k, d) != right
    ensures Going(kv, d, right) == []
  {
    hide BitIsSet;
    if kv != [] { GoingNone(kv[1..], d, right); }
  }

  lemma {:induction false} GoingAll(kv: seq<KV>, d: nat, right: bool)
    requires d < BITS && forall i :: 0 <= i < |kv| ==> BitIsSet(kv[i].k, d) == right
    ensures Going(kv, d, right) == kv
  {
    hide BitIsSet;
    if kv != [] { GoingAll(kv[1..], d, right); }
  }

  lemma {:induction false} GoingAppend(a: seq<KV>, b: seq<KV>, d: nat, right: bool)
    requires d < BITS
    ensures Going(a + b, d, right) == Going(a, d, right) + Going(b, d, right)
  {
    hide BitIsSet, Going;
    if a == [] {
      assert a + b == b;
      GoingNone(a, d, right);
    } else {
      var all, t := a + b, a[1..];
      assert all[0] == a[0] && all[1..] == t + b;
      GoingAppend(t, b, d, right);
      GoingFirst(a, d, right);
      GoingFirst(all, d, right);
    }
  }

  lemma GoingFirst(kv: seq<KV>, d: nat, right: bool)
    requires d < BITS && kv != []
    ensures Going(kv, d, right) == (if BitIsSet(kv[0].k, d) == right then [kv[0]] else []) + Going(kv[1..], d, right)
  {
  }

  /** `splitKeys`: of keys in order that agree above depth d, those before the first one that goes right, and the
      others. */
  method SplitKeys(kv: seq<KV>, d: nat) returns (l: seq<KV>, r: seq<KV>)
    requires d < BITS && InKeyOrder(kv) && Agree(KeysOf(kv), d)
    ensures l == Going(kv, d, false) && r == Going(kv, d, true)
  {
    hide BitIsSet, Going;
    for i := 0 to |kv|
      invariant forall j :: 0 <= j < i ==> !BitIsSet(kv[j].k, d)
    {
      if BitIsSet(kv[i].k, d) {
        l, r := kv[..i], kv[i..];
        SplitAt(kv, d, i);
        return;
      }
    }
    GoingAll(kv, d, false);
    GoingNone(kv, d, true);
    l, r := kv, [];
  }

  /** Behind a key that goes right all keys do. */
  lemma SplitAt(kv: seq<KV>, d: nat, i: nat)
    requires d < BITS && InKeyOrder(kv) && Agree(KeysOf(kv), d) && i < |kv| && BitIsSet(kv[i].k, d)
    requires forall j :: 0 <= j < i ==> !BitIsSet(kv[j].k, d)
    ensures kv[..i] == Going(kv, d, false) && kv[i..] == Going(kv, d, true)
  {
    hide BitIsSet, Going, SameBits, KeysOf, Less;
    var a, b := kv[..i], kv[i..];
    forall j | 0 <= j < |b| ensures BitIsSet(b[j].k, d) {
      KeysHave(kv, i);
      KeysHave(kv, i + j);
      if j > 0 && !BitIsSet(b[j].k, d) { LessBit(kv[i].k, kv[i + j].k, d); }
    }
    GoingAll(a, d, false);
    GoingNone(a, d, true);
    GoingAll(b, d, true);
    GoingNone(b, d, false);
    GoingAppend(a, b, d, false);
    GoingAppend(a, b, d, true);
    assert kv == a + b;
  }

  /** The shortcut's own key is deleted between two other keys. */
  ghost predicate DeletedInside(kv: seq<KV>, shortcutKey: Key) {
    exists i :: 0 < i < |kv| - 1 && kv[i].k == shortcutKey && kv[i].v == None
  }

  /** `maybeAddShortcutToKV`: the pushed-down shortcut joins the writes in key order, unless the key is its own; then it
      is overwritten or deleted.  Only when it is deleted between two other keys the loop goes on after the deletion and
      puts it back. */
  method MaybeAddShortcut(kv: seq<KV>, shortcutKey: Key, shortcutVal: Value) returns (kv': seq<KV>)
    requires kv != [] && InKeyOrder(kv)
    ensures Apply(map[], kv') == Apply(map[shortcutKey := shortcutVal], kv) <==> !DeletedInside(kv, shortcutKey)
    ensures !DeletedInside(kv, shortcutKey) ==> InKeyOrder(kv') && KeysOf(kv') <= KeysOf(kv) + {shortcutKey}
    ensures !DeletedInside(kv, shortcutKey) ==> |kv'| <= |kv| + 1
  {
    hide Apply, KeysOf, Less, InKeyOrder, DeletedInside;
    var shortcut := KV(shortcutKey, Some(shortcutVal));
    if Less(shortcutKey, kv[0].k) {
      Joins(kv, 0, shortcut);
      return [shortcut] + kv;
    }
    if Less(kv[|kv| - 1].k, shortcutKey) {
      Joins(kv, |kv|, shortcut);
      return kv + [shortcut];
    }
    kv' := [];
    var higher := false;
    ghost var p := PlaceOf(kv, shortcutKey);
    for i := 0 to |kv|
      invariant p < |kv| && Before(kv, shortcutKey, p) && (higher <==> i > 0 && p > 0)
      invariant i <= p ==> kv' == []
      invariant i > p ==> kv[p].k == shortcutKey && kv[p].v == None && kv' == kv[..p] + kv[p + 1..]
      invariant i > p ==> i == p + 1 || p == 0
    {
      KeyAt(kv, shortcutKey, p, i);
      if kv[i].k == shortcutKey {
        if kv[i].v.Some? {
          Overwritten(kv, p, shortcut);
          return kv;
        }
        kv' := kv' + (kv[..i] + kv[i + 1..]);
      }
      if !higher && Less(kv[i].k, shortcutKey) {
        higher := true;
        continue;
      }
      if higher && Less(shortcutKey, kv[i].k) {
        if i > p {
          PutBack(kv, p, shortcut);
        } else {
          Joins(kv, p, shortcut);
          assert kv' + (kv[..i] + [shortcut] + kv[i..]) == kv[..p] + [shortcut] + kv[p..];
        }
        kv' := kv' + (kv[..i] + [shortcut] + kv[i..]);
        return;
      }
    }
    Removed(kv, p, shortcut);
  }

  /** The first p keys are less than the key, the others are not. */
  ghost predicate Before(kv: seq<KV>, key: Key, p: nat) {
    && InKeyOrder(kv) && (forall i :: 0 <= i < p && i < |kv| ==> Less(kv[i].k, key))
    && (forall i :: p <= i < |kv| ==> !Less(kv[i].k, key))
  }

  ghost function PlaceOf(kv: seq<KV>, key: Key): (p: nat)
    requires kv != [] && InKeyOrder(kv) && !Less(kv[|kv| - 1].k, key)
    ensures p < |kv| && Before(kv, key, p)
  {
    var n := |kv| - 1;
    if n > 0 && !Less(kv[n - 1].k, key) then
      assert kv[..n][n - 1] == kv[n - 1];
      var p := PlaceOf(kv[..n], key);
      assert forall i :: 0 <= i < n ==> kv[..n][i] == kv[i];
      p
    else
      assert forall i :: 0 <= i < n ==> Less(kv[i].k, key) by {
        forall i | 0 <= i < n ensures Less(kv[i].k, key) {
          if i < n - 1 { LessTransitive(kv[i].k, kv[n - 1].k, key); }
        }
      }
      n
  }

  /** How a key compares with one in front of, at, or behind its place. */
  lemma KeyAt(kv: seq<KV>, key: Key, p: nat, i: nat)
    requires i < |kv| && p < |kv| && Before(kv, key, p)
    ensures i < p ==> Less(kv[i].k, key) && kv[i].k != key && !Less(key, kv[i].k)
    ensures i == p ==> !Less(kv[i].k, key) && (kv[i].k == key <==> !Less(key, kv[i].k))
    ensures i > p ==> !Less(kv[i].k, key) && kv[i].k != key && Less(key, kv[i].k)
  {
    LessIrreflexive(key);
    LessTotal(kv[i].k, key);
    if i < p && Less(key, kv[i].k) { LessTransitive(key, kv[i].k, key); }
    if i > p { LessTotal(kv[p].k, key); }
    if i > p && Less(key, kv[p].k) { LessTransitive(key, kv[p].k, kv[i].k); }
  }

  /** A key that is not written can be written anywhere. */
  lemma Joins(kv: seq<KV>, p: nat, w: KV)
    requires p <= |kv| && InKeyOrder(kv) && w.v.Some? && kv != []
    requires p > 0 ==> Less(kv[p - 1].k, w.k)
    requires p < |kv| ==> Less(w.k, kv[p].k)
    ensures var kv' := kv[..p] + [w] + kv[p..];
            && Apply(map[], kv') == Apply(map[w.k := w.v.value], kv) && InKeyOrder(kv')
            && KeysOf(kv') <= KeysOf(kv) + {w.k} && !DeletedInside(kv, w.k)
            && (p == 0 ==> kv' == [w] + kv) && (p == |kv| ==> kv' == kv + [w])
  {
    hide Apply, KeysOf, Less, DeletedInside, InKeyOrder;
    JoinedOrder(kv, p, w);
    NotWrittenKeys(kv, w.k);
    JoinedWrites(kv, p, w);
    JoinedKeys(kv, p, w);
    JoinedEnds(kv, p, w);
  }

  lemma JoinedEnds(kv: seq<KV>, p: nat, w: KV)
    requires p <= |kv|
    ensures p == 0 ==> kv[..p] + [w] + kv[p..] == [w] + kv
    ensures p == |kv| ==> kv[..p] + [w] + kv[p..] == kv + [w]
  {
  }

  lemma JoinedWrites(kv: seq<KV>, p: nat, w: KV)
    requires p <= |kv| && w.v.Some? && w.k !in KeysOf(kv)
    ensures Apply(map[], kv[..p] + [w] + kv[p..]) == Apply(map[w.k := w.v.value], kv)
  {
    hide Apply, KeysOf;
    var a, b := kv[..p], kv[p..];
    assert kv == a + b;
    KeysAppend(a, b);
    ApplyAppend(map[], a + [w], b);
    ApplyAppend(map[], a, [w]);
    ApplyAppend(map[], a, b);
    ApplyOfOne(Apply(map[], a), w);
    ApplyElsewhere(Apply(map[], a), b, w.k, w.v.value);
    ApplyElsewhere(map[], kv, w.k, w.v.value);
  }

  lemma JoinedKeys(kv: seq<KV>, p: nat, w: KV)
    requires p <= |kv|
    ensures KeysOf(kv[..p] + [w] + kv[p..]) <= KeysOf(kv) + {w.k}
  {
    hide KeysOf;
    var a, b := kv[..p], kv[p..];
    assert kv == a + b;
    KeysAppend(a, b);
    KeysAppend(a + [w], b);
    KeysAppend(a, [w]);
    ApplyOfOne(map[], w);
  }

  lemma JoinedOrder(kv: seq<KV>, p: nat, w: KV)
    requires p <= |kv| && InKeyOrder(kv)
    requires p > 0 ==> Less(kv[p - 1].k, w.k)
    requires p < |kv| ==> Less(w.k, kv[p].k)
    ensures InKeyOrder(kv[..p] + [w] + kv[p..])
    ensures forall i :: 0 <= i < |kv| ==> kv[i].k != w.k
  {
    hide Less;
    forall i | 0 <= i < p ensures Less(kv[i].k, w.k) && kv[i].k != w.k {
      if i < p - 1 { LessTransitive(kv[i].k, kv[p - 1].k, w.k); }
      LessIrreflexive(w.k);
    }
    forall i | p <= i < |kv| ensures Less(w.k, kv[i].k) && kv[i].k != w.k {
      if i > p { LessTransitive(w.k, kv[p].k, kv[i].k); }
      LessIrreflexive(w.k);
    }
  }

  lemma NotWrittenKeys(kv: seq<KV>, key: Key)
    requires forall i :: 0 <= i < |kv| ==> kv[i].k != key
    ensures key !in KeysOf(kv) && !DeletedInside(kv, key)
  {
  }

  lemma KeysAppend(a: seq<KV>, b: seq<KV>)
    ensures KeysOf(a + b) == KeysOf(a) + KeysOf(b)
  {
    forall k | k in KeysOf(a) ensures k in KeysOf(a + b) {
      var i :| 0 <= i < |a| && a[i].k == k;
      assert (a + b)[i].k == k;
    }
    forall k | k in KeysOf(b) ensures k in KeysOf(a + b) {
      var i :| 0 <= i < |b| && b[i].k == k;
      assert (a + b)[|a| + i].k == k;
    }
  }

  lemma {:induction false} ApplyAppend(m: Map, a: seq<KV>, b: seq<KV>)
    ensures Apply(m, a + b) == Apply(Apply(m, a), b)
    decreases |a|
  {
    if a == [] {
      assert a + b == b;
    } else {
      assert (a + b)[0] == a[0] && (a + b)[1..] == a[1..] + b;
      ApplyAppend(ApplyOne(m, a[0]), a[1..], b);
    }
  }

  /** Writes to other keys leave an entry. */
  lemma {:induction false} ApplyElsewhere(m: Map, kv: seq<KV>, key: Key, value: Value)
    requires key !in KeysOf(kv)
    ensures Apply(m[key := value], kv) == Apply(m, kv)[key := value]
    decreases |kv|
  {
    if kv != [] {
      assert kv == [kv[0]] + kv[1..];
      KeysAppend([kv[0]], kv[1..]);
      KeysHave([kv[0]], 0);
      assert ApplyOne(m[key := value], kv[0]) == ApplyOne(m, kv[0])[key := value];
      ApplyElsewhere(ApplyOne(m, kv[0]), kv[1..], key, value);
    }
  }

  /** The writes around the shortcut's own key. */
  lemma Around(kv: seq<KV>, p: nat)
    requires p < |kv| && InKeyOrder(kv)
    ensures kv == kv[..p] + [kv[p]] + kv[p + 1..]
    ensures kv[p].k !in KeysOf(kv[..p]) && kv[p].k !in KeysOf(kv[p + 1..])
    ensures InKeyOrder(kv[..p] + kv[p + 1..]) && KeysOf(kv[..p] + kv[p + 1..]) <= KeysOf(kv)
  {
    hide Less;
    var a, b := kv[..p], kv[p + 1..];
    LessIrreflexive(kv[p].k);
    KeysAppend(a, b);
    KeysAppend(a, [kv[p]]);
    KeysAppend(a + [kv[p]], b);
  }

  /** A write of the shortcut's key decides it. */
  lemma Overwritten(kv: seq<KV>, p: nat, w: KV)
    requires p < |kv| && InKeyOrder(kv) && kv[p].k == w.k && kv[p].v.Some? && w.v.Some?
    ensures Apply(map[], kv) == Apply(map[w.k := w.v.value], kv) && !DeletedInside(kv, w.k)
    ensures KeysOf(kv) <= KeysOf(kv) + {w.k}
  {
    hide Apply, KeysOf, Less;
    var a, b := kv[..p], kv[p + 1..];
    Around(kv, p);
    forall m: Map ensures Apply(m, kv) == Apply(ApplyOne(Apply(m, a), kv[p]), b) {
      ApplyAppend(m, a + [kv[p]], b);
      ApplyAppend(m, a, [kv[p]]);
      ApplyOfOne(Apply(m, a), kv[p]);
    }
    ApplyElsewhere(map[], a, w.k, w.v.value);
    var x := Apply(map[], a);
    assert ApplyOne(x[w.k := w.v.value], kv[p]) == ApplyOne(x, kv[p]);
    LessIrreflexive(w.k);
    assert forall i :: 0 <= i < |kv| && i != p ==> Less(kv[i].k, kv[p].k) || Less(kv[p].k, kv[i].k);
    assert !DeletedInside(kv, w.k);
  }

  /** A deletion of the shortcut's key at an end of the writes leaves the others. */
  lemma Removed(kv: seq<KV>, p: nat, w: KV)
    requires p < |kv| && InKeyOrder(kv) && kv[p].k == w.k && kv[p].v == None && w.v.Some? && (p == 0 || p == |kv| - 1)
    ensures var kv' := kv[..p] + kv[p + 1..];
            && Apply(map[], kv') == Apply(map[w.k := w.v.value], kv) && InKeyOrder(kv')
            && KeysOf(kv') <= KeysOf(kv) + {w.k} && !DeletedInside(kv, w.k) && |kv'| <= |kv| + 1
  {
    hide Apply, KeysOf, Less;
    var a, b := kv[..p], kv[p + 1..];
    Around(kv, p);
    WithoutKey(kv, p, w);
    ApplyAppend(map[], a, b);
    LessIrreflexive(w.k);
    assert forall i :: 0 <= i < |kv| && i != p ==> Less(kv[i].k, kv[p].k) || Less(kv[p].k, kv[i].k);
    assert !DeletedInside(kv, w.k);
  }

  /** What a deletion of the shortcut's key comes to. */
  lemma WithoutKey(kv: seq<KV>, p: nat, w: KV)
    requires p < |kv| && InKeyOrder(kv) && kv[p].k == w.k && kv[p].v == None && w.v.Some?
    ensures Apply(map[w.k := w.v.value], kv) == Apply(Apply(map[], kv[..p]), kv[p + 1..])
    ensures w.k !in Apply(map[w.k := w.v.value], kv)
  {
    hide Apply, KeysOf, Less;
    var a, b := kv[..p], kv[p + 1..];
    Around(kv, p);
    ApplyAppend(map[w.k := w.v.value], a + [kv[p]], b);
    ApplyAppend(map[w.k := w.v.value], a, [kv[p]]);
    ApplyOfOne(Apply(map[w.k := w.v.value], a), kv[p]);
    ApplyElsewhere(map[], a, w.k, w.v.value);
    ApplyKeys(map[], a);
    ApplyKeys(Apply(map[], a), b);
    assert Apply(map[], a)[w.k := w.v.value] - {w.k} == Apply(map[], a);
  }

  /** A deletion between other keys is undone. */
  lemma PutBack(kv: seq<KV>, p: nat, w: KV)
    requires 0 < p < |kv| - 1 && InKeyOrder(kv) && kv[p].k == w.k && kv[p].v == None && w.v.Some?
    ensures DeletedInside(kv, w.k)
    ensures var kv' := kv[..p] + kv[p + 1..] + (kv[..p + 1] + [w] + kv[p + 1..]);
            Apply(map[], kv') != Apply(map[w.k := w.v.value], kv)
  {
    hide Apply, KeysOf, Less;
    var x, b := kv[..p] + kv[p + 1..] + kv[..p + 1], kv[p + 1..];
    var kv' := kv[..p] + kv[p + 1..] + (kv[..p + 1] + [w] + kv[p + 1..]);
    assert kv' == x + [w] + b;
    Around(kv, p);
    WithoutKey(kv, p, w);
    ApplyAppend(map[], x + [w], b);
    ApplyAppend(map[], x, [w]);
    ApplyOfOne(Apply(map[], x), w);
    ApplyElsewhere(Apply(map[], x), b, w.k, w.v.value);
  }

  lemma BottomKeys(keys: set<Key>, a: Key, b: Key)
    requires Agree(keys, BITS) && a in keys && b in keys
    ensures a == b
  {
    BitsDetermine(a, b);
  }

  lemma BottomWrites(kv: seq<KV>, m: Map)
    requires Writable(kv, m, 0)
    ensures |kv| == 1 && |m| <= 1 && Apply(m, kv) == if kv[0].v.Some? then map[kv[0].k := kv[0].v.value] else map[]
  {
    hide SameBits, KeysOf, Apply, Agree, Less;
    var keys := m.Keys + KeysOf(kv);
    KeysHave(kv, 0);
    if |kv| == 2 {
      KeysHave(kv, 1);
      BottomKeys(keys, kv[0].k, kv[1].k);
      LessIrreflexive(kv[0].k);
    }
    forall k | k in m ensures k == kv[0].k {
      BottomKeys(keys, k, kv[0].k);
    }
    if |m| > 0 {
      assert m.Keys == {kv[0].k};
    }
    assert kv == [kv[0]];
    ApplyOfOne(m, kv[0]);
  }

  lemma AgreeAtTop(keys: set<Key>)
    ensures Agree(keys, 0)
  {
  }

  lemma TopWritable(m: Map, w: KV)
    ensures Writable([w], m, BITS) && Apply(m, [w]) == ApplyOne(m, w)
  {
    AgreeAtTop(m.Keys + KeysOf([w]));
    ApplyOfOne(m, w);
  }

  lemma WritableNear(kv: seq<KV>, m: Map, height: nat)
    requires Writable(kv, m, height)
    ensures Near(m.Keys, kv[0].k, height) && Near(KeysOf(kv), kv[0].k, height)
    ensures Near(Apply(m, kv).Keys, kv[0].k, height)
  {
    hide SameBits, Apply;
    ApplyKeys(m, kv);
    KeysHave(kv, 0);
    hide KeysOf;
  }

  lemma NearPart(a: set<Key>, b: set<Key>, part: set<Key>, q: Key, height: nat)
    requires height <= BITS && Near(a, q, height) && Near(b, q, height) && part <= a + b
    ensures Near(part, q, height)
  {
    hide SameBits;
  }

  lemma NearItself(q: Key, height: nat)
    requires height <= BITS
    ensures Near({q}, q, height)
  {
  }

  lemma NearAgain(kv: seq<KV>, m: Map, kv1: seq<KV>, height: nat)
    requires Writable(kv, m, height) && KeysOf(kv1) <= KeysOf(kv) + m.Keys
    ensures Near(KeysOf(kv1), kv[0].k, height)
  {
    hide SameBits, KeysOf, Apply;
    WritableNear(kv, m, height);
  }

  /** What each side gets. */
  lemma SidesSplit(kv: seq<KV>, height: nat, q: Key)
    requires 0 < height <= BITS && 1 <= |kv| <= 2 && Near(KeysOf(kv), q, height)
    ensures var d := BITS - height; var l, r := Going(kv, d, false), Going(kv, d, true);
            && (l == [] || r == [] || |kv| == 2) && (l != [] || r != []) && SameBits(q, q, d)
            && (l != [] ==> !BitIsSet(l[0].k, d) && SameBits(l[0].k, q, d))
            && (r != [] ==> BitIsSet(r[0].k, d) && SameBits(r[0].k, q, d))
  {
    hide Going, BitIsSet, SameBits, KeysOf;
    var d := BITS - height;
    GoingKeys(kv, d, false);
    GoingKeys(kv, d, true);
    GoingKeysOf(kv, d, false);
    GoingKeysOf(kv, d, true);
    var l, r := Going(kv, d, false), Going(kv, d, true);
    if l != [] { KeysHave(l, 0); }
    if r != [] { KeysHave(r, 0); }
    OwnBits(q, d);
  }

  lemma OwnBits(q: Key, d: nat)
    requires d <= BITS
    ensures SameBits(q, q, d)
  {
  }
}
