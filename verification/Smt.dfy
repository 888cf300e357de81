/** The tree object: a content-addressed store, a node cache, a root and pending writes. */
module Smt {
  import opened Words
  import opened SmtNodes
  import opened SmtModel
  import opened SmtBatch
  import opened SmtInPlace

  datatype Reason = EmptyTree | ShortcutMismatch | BranchEmpty | DeletedPending | Unavailable
  datatype GetResult = Found(value: Value) | Failed(reason: Reason)

  /** Nothing that the old store returned is lost. */
  ghost predicate Extends(s: Store, s': Store) {
    forall x :: x in s ==> x in s' && s'[x] == s[x]
  }

  ghost predicate StoreOk(h: Hash, U: iset<seq<Byte>>, s: Store) {
    CollisionFree(h, U) && forall x :: x in s ==> s[x] in U && h(s[x]) == x
  }

  lemma StoredMonotone(h: Hash, s: Store, s': Store, m: Map, d: nat)
    requires d <= KEY_SIZE && Extends(s, s') && Stored(h, s, m, d)
    ensures Stored(h, s', m, d)
  {
    NodesInMonotone(h, Held(h, s), Held(h, s'), m, d);
  }

  /** What a store can return lies in the universe. */
  lemma StoredInUniverse(h: Hash, U: iset<seq<Byte>>, s: Store, m: Map, d: nat)
    requires d <= KEY_SIZE && StoreOk(h, U, s) && Stored(h, s, m, d)
    ensures NodesIn(h, U, m, d)
  {
    NodesInMonotone(h, Held(h, s), U, m, d);
  }

  /** All 256 sub-trees below depth d. */
  ghost predicate SubsStored(h: Hash, s: Store, m: Map, d: nat)
    requires d < KEY_SIZE
  {
    forall c: Byte :: Stored(h, s, Sub(m, d, c), d + 1)
  }

  lemma SubsStoredMonotone(h: Hash, s: Store, s': Store, m: Map, d: nat)
    requires d < KEY_SIZE && Extends(s, s') && SubsStored(h, s, m, d)
    ensures SubsStored(h, s', m, d)
  {
    forall c: Byte ensures Stored(h, s', Sub(m, d, c), d + 1) {
      StoredMonotone(h, s, s', Sub(m, d, c), d + 1);
    }
  }

  /** A leaf buffer splits into the one key and its value. */
  lemma LeafParts(h: Hash, m: Map, d: nat)
    requires d <= KEY_SIZE && |m| > 0 && Agree(m.Keys, d) && NodeData(h, m, d)[0] == NODE_LEAF
    ensures var data := NodeData(h, m, d);
            |data| >= 1 + KEY_SIZE && m == map[data[1..1 + KEY_SIZE] := data[1 + KEY_SIZE..]]
  {
    if d == KEY_SIZE { AtMostOneAtBottom(m); }
    var k, data := TheKey(m), NodeData(h, m, d);
    assert IsLeaf(m, d);
    OneEntry(m, k);
    assert data[1..33] == k && data[33..] == m[k];
  }

  /** A leaf below depth d + 1 that holds the whole map is also the tree at depth d. */
  lemma LoneLeaf(h: Hash, s: Store, m: Map, d: nat, c: Byte)
    requires d < KEY_SIZE && Agree(m.Keys, d) && Sub(m, d, c) == m && |m| > 0
    requires Stored(h, s, m, d + 1) && NodeData(h, m, d + 1)[0] == NODE_LEAF
    ensures Root(h, m, d) == Root(h, m, d + 1) && Stored(h, s, m, d)
  {
    AgreeSub(m.Keys, m.Keys, d, c);
    LeafParts(h, m, d + 1);
  }

  /** Descending one level: the sub-tree on the way of k is stored, and decides k. */
  lemma ChildFacts(h: Hash, U: iset<seq<Byte>>, s: Store, m: Map, d: nat, k: Key)
    requires d < KEY_SIZE && StoreOk(h, U, s) && Agree(m.Keys, d) && Stored(h, s, m, d)
    ensures var sub := Sub(m, d, k[d]);
            && Agree(sub.Keys, d + 1) && Stored(h, s, sub, d + 1)
            && (Root(h, sub, d + 1) == EMPTY <==> sub == map[])
            && (k in m <==> k in sub) && (k in m ==> sub[k] == m[k])
  {
    var sub := Sub(m, d, k[d]);
    NodesInSub(h, Held(h, s), m, d, k[d]);
    AgreeSub(m.Keys, sub.Keys, d, k[d]);
    StoredInUniverse(h, U, s, sub, d + 1);
    EmptyRoot(h, U, sub, d + 1);
  }

  lemma EmptyTable(h: Hash, d: nat)
    requires d < KEY_SIZE
    ensures forall c :: 0 <= c < ARITY ==> ChildRoots(h, map[], d)[c] == EMPTY
  {
    forall c | 0 <= c < ARITY ensures ChildRoots(h, map[], d)[c] == EMPTY {
      var nothing: Map := map[];
      assert Sub(nothing, d, c) == nothing;
    }
  }

  method ContainsKey(batch: array<KV>, lo: nat, hi: nat, k: Key) returns (found: bool)
    requires lo <= hi <= batch.Length
    ensures found == (k in ToWrites(batch[lo..hi]))
  {
    found := false;
    for i := lo to hi
      invariant found == (k in ToWrites(batch[lo..i]))
    {
      assert batch[lo..i + 1][..i - lo] == batch[lo..i];
      if batch[i].k == k {
        found := true;
      }
    }
  }

  /** `append` to the slice [lo, hi): in place when the array goes on behind it, else in a new array that may have room
      for more. */
  method Append(batch: array<KV>, lo: nat, hi: nat, e: KV) returns (r: array<KV>, lo': nat, hi': nat)
    requires lo <= hi <= batch.Length
    modifies batch
    ensures lo' < hi' <= r.Length && r[lo'..hi'] == old(batch[lo..hi]) + [e]
    ensures hi < batch.Length ==> r == batch && lo' == lo && hi' == hi + 1
    ensures hi < batch.Length ==> batch[..] == old(batch[..])[hi := e]
    ensures hi == batch.Length ==> fresh(r) && batch[..] == old(batch[..])
  {
    if hi < batch.Length {
      batch[hi] := e;
      assert batch[lo..hi + 1] == old(batch[lo..hi]) + [e];
      return batch, lo, hi + 1;
    }
    var n := hi - lo;
    assert n + 1 > n;
    var capacity: nat :| capacity > n;
    r := new KV[capacity](i requires 0 <= i reads batch => if i < n then batch[lo + i] else e);
    lo', hi' := 0, n + 1;
    assert r[..n + 1] == batch[lo..hi] + [e];
  }

  /** What stands behind the slice [lo, hi) of an array after an update; the rest outside the slice is as it was. */
  ghost predicate Overwritten(was: seq<KV>, now: seq<KV>, lo: nat, hi: nat, behind: Option<KV>) {
    && lo <= hi <= |was| == |now| && now[..lo] == was[..lo]
    && (hi < |was| ==> now[hi] == (if behind.Some? then behind.value else was[hi]) && now[hi + 1..] == was[hi + 1..])
  }

  /** The leaf on the way joins the batch, and the slice is sorted. */
  method AddStored(batch: array<KV>, lo: nat, hi: nat, e: KV) returns (r: array<KV>, lo': nat, hi': nat)
    requires lo < hi <= batch.Length && Sorted(batch[lo..hi]) && e.k !in ToWrites(batch[lo..hi])
    modifies batch
    ensures lo' < hi' <= r.Length && r[lo'..hi'] == Insertion(old(batch[lo..hi]), e)
    ensures Overwritten(old(batch[..]), batch[..], lo, hi, Some(Insertion(old(batch[lo..hi]), e)[hi - lo]))
    ensures hi < batch.Length ==> r == batch && lo' == lo && hi' == hi + 1
    ensures hi == batch.Length ==> fresh(r) && batch[..] == old(batch[..])
  {
    ghost var b, was := batch[lo..hi], batch[..];
    r, lo', hi' := Append(batch, lo, hi, e);
    InOrderAppended(b, e);
    ghost var now := r[..];
    SortSlice(r, lo', hi');
    Spliced(now, r[..], lo', hi', Insertion(b, e));
    if hi < batch.Length { Behind(was, batch[..], lo, hi, e, Insertion(b, e)); }
  }

  lemma InOrderAppended(b: seq<KV>, e: KV)
    requires Sorted(b)
    ensures InOrder(b + [e]) == Insertion(b, e)
  {
    InOrderSorted(b);
    assert (b + [e])[..|b|] == b;
  }

  lemma Spliced(was: seq<KV>, now: seq<KV>, lo: nat, hi: nat, b: seq<KV>)
    requires lo <= hi <= |was| && now == was[..lo] + b + was[hi..] && |b| == hi - lo
    ensures |now| == |was| && now[lo..hi] == b && now[..lo] == was[..lo] && now[hi..] == was[hi..]
  {
  }

  lemma Behind(was: seq<KV>, now: seq<KV>, lo: nat, hi: nat, e: KV, joined: seq<KV>)
    requires lo <= hi < |was| && |joined| == hi - lo + 1
    requires now == was[hi := e][..lo] + joined + was[hi := e][hi + 1..]
    ensures Overwritten(was, now, lo, hi, Some(joined[hi - lo]))
  {
  }

  /** What the children table starts with. */
  ghost function Base(m: Map): Map {
    if |m| == 1 then map[] else m
  }

  /** A leaf that the batch does not write. */
  ghost predicate Foreign(m: Map, b: seq<KV>) {
    |m| == 1 && TheKey(m) !in ToWrites(b)
  }

  ghost function Joined(m: Map, b: seq<KV>): seq<KV> {
    if Foreign(m, b) then Insertion(b, Entry(m)) else b
  }

  /** `Step` where the recursion ends. */
  lemma StepAtEnds(m: Map, b: seq<KV>, d: nat)
    requires Ready(m, b, d)
    ensures b == [] ==> Step(m, b, d) == Run(m, None)
    ensures b != [] && (d == KEY_SIZE || (m == map[] && |b| == 1)) ==>
      var e := b[|b| - 1];
      Step(m, b, d) == Run(if e.v.None? then map[] else map[e.k := e.v.value], None)
  {
    if b != [] { SingleWrite(b[|b| - 1]); }
    assert |b| == 1 ==> b == [b[|b| - 1]];
    hide ToWrites, Sorted, Agree;
  }

  /** `Step` elsewhere: a leaf that the batch does not write joins it, and the groups are handled. */
  lemma StepBelow(m: Map, b: seq<KV>, d: nat)
    requires Ready(m, b, d) && b != [] && d < KEY_SIZE && !(m == map[] && |b| == 1)
    ensures Ready(Base(m), Joined(m, b), d)
    ensures var s, g := Step(m, b, d), Groups(Base(m), Joined(m, b), d);
      s.after == g.after && s.behind == if Foreign(m, b) then Some(Joined(m, b)[|b|]) else g.behind
  {
    hide ToWrites, Sorted, Agree, Groups, Insertion;
    if Foreign(m, b) {
      JoinedReady(m, b, d);
    } else {
      ReadyPart(m, Base(m), b, d);
      assert |m| == 0 ==> m == map[];
    }
  }

  lemma GroupsAgree(m: Map, b: seq<KV>, d: nat)
    requires d < KEY_SIZE && Ready(m, b, d)
    ensures Agree(Groups(m, b, d).after.Keys, d)
  {
    GroupsExact(m, b, d);
    ReadyParts(m, b, d);
    hide ToWrites, Sorted, Agree, Groups, LostGroups, Ready;
    PartAgrees(m.Keys + ToWrites(b).Keys, Groups(m, b, d).after.Keys, d);
  }

  /** The entries of the batch go to children that are empty. */
  ghost predicate Fresh(m: Map, b: seq<KV>, d: nat)
    requires d < KEY_SIZE
  {
    forall i :: 0 <= i < |b| ==> Sub(m, d, b[i].k[d]) == map[]
  }

  lemma AllFresh(b: seq<KV>, d: nat)
    requires d < KEY_SIZE
    ensures Fresh(map[], b, d)
  {
    NoSubs(d);
  }

  lemma NothingFresh(m: Map, d: nat)
    requires d < KEY_SIZE
    ensures Fresh(m, [], d)
  {
  }

  lemma GroupsOfNothing(m: Map, d: nat)
    requires d < KEY_SIZE
    ensures Groups(m, [], d) == Run(m, None)
  {
  }

  /** One round of the loop over the groups. */
  lemma GroupsNext(m: Map, b: seq<KV>, d: nat)
    requires d < KEY_SIZE && Ready(m, b, d) && b != []
    ensures var n, c := RunLength(b, d), b[0].k[d];
      var s := Step(Sub(m, d, c), b[..n], d + 1);
      var m1 := Replace(m, d, c, s.after);
      && Ready(Sub(m, d, c), b[..n], d + 1) && (forall k :: k in s.after ==> k[d] == c)
      && Sub(Groups(m, b, d).after, d, c) == s.after
      && (n == |b| ==> Groups(m, b, d) == Run(m1, s.behind) && Ready(m1, [], d) && Fresh(m1, [], d))
      && (n < |b| ==> var rest := Remaining(b, n, s.behind);
           Groups(m, b, d) == Groups(m1, rest, d) && Ready(m1, rest, d))
      && (Fresh(m, b, d) ==> Sub(m, d, c) == map[] && s.behind == None)
      && (Fresh(m, b, d) && n < |b| ==> Fresh(m1, Remaining(b, n, None), d))
  {
    hide ToWrites, Sorted, Agree, Step, Lost, Sub, Replace, Override, Exact, RunLength, Remaining, Groups, Fresh, Ready;
    var n, c := RunLength(b, d), b[0].k[d];
    var sub, g := Sub(m, d, c), b[..n];
    FirstRun(m, b, d);
    GroupKept(m, b, d);
    GroupsUnfold(m, b, d);
    StepExact(sub, g, d + 1);
    var s, lost := Step(sub, g, d + 1), Lost(sub, g, d + 1);
    FirstDone(m, b, d, s, lost);
    if n < |b| {
      RestReady(m, b, d, s, lost);
    } else {
      AllDone(m, b, d, s, lost);
      NothingFresh(Replace(m, d, c, s.after), d);
    }
    if Fresh(m, b, d) { FreshNext(m, b, d, s, lost); }
  }

  lemma AllDone(m: Map, b: seq<KV>, d: nat, s: Run, lost: set<Key>)
    requires d < KEY_SIZE && Ready(m, b, d) && b != [] && Agree(ToWrites(b).Keys, d)
    requires Exact(Sub(m, d, b[0].k[d]), b[..RunLength(b, d)], s, lost)
    ensures Ready(Replace(m, d, b[0].k[d], s.after), [], d)
  {
    KeysAfter(m, b, d, s, lost);
    hide ToWrites, RunLength, Replace, Exact, Agree;
    var none: seq<KV> := [];
    NothingWritten(m, none);
    PartAgrees(m.Keys + ToWrites(b).Keys, Replace(m, d, b[0].k[d], s.after).Keys + ToWrites(none).Keys, d);
  }

  lemma FreshNext(m: Map, b: seq<KV>, d: nat, s: Run, lost: set<Key>)
    requires d < KEY_SIZE && Ready(m, b, d) && b != [] && Agree(ToWrites(b).Keys, d) && Fresh(m, b, d)
    requires Exact(Sub(m, d, b[0].k[d]), b[..RunLength(b, d)], s, lost)
    requires Sub(m, d, b[0].k[d]) == map[] ==> s.behind == None
    ensures Sub(m, d, b[0].k[d]) == map[]
    ensures RunLength(b, d) < |b| ==>
      Fresh(Replace(m, d, b[0].k[d], s.after), Remaining(b, RunLength(b, d), None), d)
  {
    hide ToWrites, Sorted, Agree, Exact, Sub, Replace, Ready, RunLength, Remaining;
    if RunLength(b, d) < |b| { StaysFresh(m, b, d, s, lost); }
  }

  lemma NothingOverwritten(was: seq<KV>, lo: nat, hi: nat)
    requires lo <= hi <= |was|
    ensures Overwritten(was, was, lo, hi, None)
  {
  }

  /** A group inside the slice: what is left of the slice, and what the group wrote behind it when it is the last. */
  lemma NextGroup(was: seq<KV>, before: seq<KV>, now: seq<KV>, lo: nat, start: nat, end: nat, hi: nat,
          behind: Option<KV>)
    requires lo <= start < end <= hi <= |was| && Overwritten(was, before, lo, hi, None)
    requires Overwritten(before, now, start, end, behind)
    ensures Overwritten(was, now, lo, hi, if end == hi then behind else None)
    ensures end < hi ==> now[end..hi] == Remaining(before[start..hi], end - start, behind)
  {
    assert before[..start][..lo] == before[..lo] && now[..start][..lo] == now[..lo];
    if end < hi {
      var t, t' := before[end + 1..], now[end + 1..];
      assert now[end + 1..hi] == t'[..hi - end - 1] && before[end + 1..hi] == t[..hi - end - 1];
      assert now[end..hi] == [now[end]] + now[end + 1..hi];
      if hi < |was| {
        assert now[hi] == t'[hi - end - 1] && before[hi] == t[hi - end - 1];
        assert now[hi + 1..] == t'[hi - end..] && before[hi + 1..] == t[hi - end..];
      }
    }
  }

  lemma SubsReplaced(h: Hash, s: Store, m: Map, d: nat, c: Byte, sub: Map)
    requires d < KEY_SIZE && SubsStored(h, s, m, d) && Stored(h, s, sub, d + 1)
    requires forall k :: k in sub ==> k[d] == c
    ensures SubsStored(h, s, Replace(m, d, c, sub), d)
  {
    hide Stored, Sub, Replace;
    forall c': Byte ensures Stored(h, s, Sub(Replace(m, d, c, sub), d, c'), d + 1) {
      ReplaceSub(m, d, c, sub, c');
    }
  }

  lemma {:induction false} RunIs(b: seq<KV>, n: nat, d: nat)
    requires d < KEY_SIZE && 0 < n <= |b| && forall i :: 0 <= i < n ==> b[i].k[d] == b[0].k[d]
    requires n < |b| ==> b[n].k[d] != b[0].k[d]
    ensures RunLength(b, d) == n
  {
    hide RunLength;
    var r := RunLength(b, d);
    assert r < |b| ==> b[r].k[d] != b[0].k[d];
  }

  lemma CommitNothing(m: Map)
    ensures Committed(m, map[]) == m
  {
    WritesOfNone();
  }

  lemma WritesOfNone()
    ensures SortedWrites(map[]) == []
  {
    SortedUnique(SortedWrites(map[]), []);
  }

  /** Replacing one entry of the child table. */
  lemma TableStep(h: Hash, m: Map, d: nat, c: Byte, s: Map)
    requires d < KEY_SIZE && forall k :: k in s ==> k[d] == c
    ensures ChildRoots(h, Replace(m, d, c, s), d) == ChildRoots(h, m, d)[c := Root(h, s, d + 1)]
  {
    forall c' | 0 <= c' < ARITY
      ensures ChildRoots(h, Replace(m, d, c, s), d)[c'] == ChildRoots(h, m, d)[c := Root(h, s, d + 1)][c']
    {
      ReplaceSub(m, d, c, s, c');
    }
  }

  class SMT {
    const hash: Hash
    var store: Store
    var cache: Store
    var root: Digest
    var pendingUpdates: Writes

    /** The byte strings on which the hash is assumed free of collisions. */
    ghost const universe: iset<seq<Byte>>
    /** The committed map. */
    ghost var contents: Map

    ghost predicate Consistent()
      reads this
    {
      StoreOk(hash, universe, store) && Extends(cache, store)
    }

    ghost predicate Valid()
      reads this
    {
      Consistent() && root == Root(hash, contents, 0) && Stored(hash, store, contents, 0)
    }

    /** The map that readers see: committed entries overridden by pending writes. */
    ghost function View(): Map
      reads this
    {
      Override(contents, pendingUpdates)
    }

    /** What the root is the hash of, byte by byte. */
    ghost predicate TopStored()
      reads this
    {
      if contents == map[] then Zeros(root)
      else root in store && root == hash(store[root]) && TopBytes(hash, contents, 0, store[root])
    }

    lemma RootStored()
      requires Valid()
      ensures TopStored()
    {
      hide TopBytes, NodeData;
      assert Agree(contents.Keys, 0);
      RootLaw(hash, contents, 0);
    }

    constructor (hash: Hash, ghost universe: iset<seq<Byte>>)
      requires CollisionFree(hash, universe)
      ensures Valid() && View() == map[] && this.hash == hash && this.universe == universe
    {
      this.hash := hash;
      this.universe := universe;
      store := map[];
      cache := map[];
      root := EMPTY;
      pendingUpdates := map[];
      contents := map[];
    }

    // -------------------------------------------------------------- nodes

    /** Adding to the cache may evict any other entries. */
    method CacheAdd(key: Digest, data: seq<Byte>)
      requires Consistent() && key in store && store[key] == data
      modifies this`cache
      ensures Consistent()
    {
      var keep: set<Digest> := *;
      cache := (map k | k in cache && k in keep :: cache[k])[key := data];
    }

    method LoadNode(key: Digest) returns (data: Option<seq<Byte>>)
      requires Consistent()
      modifies this`cache
      ensures Consistent()
      ensures data == if key in store then Some(store[key]) else None
    {
      if key in cache {
        return Some(cache[key]);
      }
      if key !in store {
        return None;
      }
      data := Some(store[key]);
      CacheAdd(key, store[key]);
    }

    method StoreNode(data: seq<Byte>) returns (h: Digest)
      requires Consistent() && data in universe
      modifies this`store, this`cache
      ensures Consistent() && Extends(old(store), store)
      ensures h == hash(data) && data in Held(hash, store)
    {
      h := hash(data);
      store := store[h := data];
      CacheAdd(h, data);
    }

    method StoreLeaf(k: Key, v: Value) returns (h: Digest)
      requires Consistent() && LeafData(k, v) in universe
      modifies this`store, this`cache
      ensures Consistent() && Extends(old(store), store)
      ensures h == hash(LeafData(k, v)) && LeafData(k, v) in Held(hash, store)
      ensures h in store && h == hash(store[h]) && LeafBytes(store[h], k, v)
    {
      LeafLaw(LeafData(k, v), k, v);
      h := StoreNode([NODE_LEAF] + k + v);
    }

    method StoreInternal(children: Children) returns (h: Digest)
      requires Consistent() && InternalData(children) in universe
      modifies this`store, this`cache
      ensures Consistent() && Extends(old(store), store)
      ensures h == hash(InternalData(children)) && InternalData(children) in Held(hash, store)
      ensures h in store && h == hash(store[h]) && NodeBytes(store[h], children)
    {
      hide NodeBytes;
      var data := EncodeInternal(children);
      h := StoreNode(data);
    }

    // -------------------------------------------------------------- reading

    method Lookup(r: Digest, key: Key, depth: nat, ghost m: Map) returns (res: GetResult)
      requires Consistent() && depth <= KEY_SIZE && Agree(m.Keys, depth)
      requires r == Root(hash, m, depth) && Stored(hash, store, m, depth)
      modifies this`cache
      ensures Consistent()
      ensures key in m ==> res == Found(m[key])
      ensures key !in m ==> res.Failed? && res.reason in {EmptyTree, ShortcutMismatch, BranchEmpty}
      decreases KEY_SIZE - depth
    {
      StoredInUniverse(hash, universe, store, m, depth);
      EmptyRoot(hash, universe, m, depth);
      if r == EMPTY {
        return Failed(EmptyTree);
      }
      var loaded := LoadNode(r);
      if loaded.None? {
        return Failed(Unavailable);
      }
      var data := loaded.value;
      assert data == NodeData(hash, m, depth);
      if depth == KEY_SIZE { AtMostOneAtBottom(m); }
      if data[0] == NODE_LEAF {
        LeafParts(hash, m, depth);
        var storedKey: Key := data[1..1 + KEY_SIZE];
        if storedKey == key {
          return Found(data[1 + KEY_SIZE..]);
        }
        return Failed(ShortcutMismatch);
      }
      ghost var sub := Sub(m, depth, key[depth]);
      ChildFacts(hash, universe, store, m, depth, key);
      var child := SelectChild(data, key[depth], ChildRoots(hash, m, depth));
      if child.None? {
        return Failed(BranchEmpty);
      }
      res := Lookup(child.value, key, depth + 1, sub);
    }

    method Get(key: Key) returns (res: GetResult)
      requires Valid()
      modifies this`cache
      ensures Valid()
      ensures key in View() ==> res == Found(View()[key])
      ensures key !in View() ==> res.Failed? && res.reason != Unavailable
      ensures res == Failed(DeletedPending) <==> key in pendingUpdates && pendingUpdates[key].None?
    {
      if key in pendingUpdates {
        if pendingUpdates[key].None? {
          return Failed(DeletedPending);
        }
        return Found(pendingUpdates[key].value);
      }
      res := Lookup(root, key, 0, contents);
    }

    // -------------------------------------------------------------- writing

    method Set(key: Key, value: Option<Value>)
      requires Valid()
      modifies this`pendingUpdates
      ensures Valid() && View() == if value.Some? then old(View())[key := value.value] else old(View()) - {key}
      ensures pendingUpdates == old(pendingUpdates)[key := value]
    {
      OverrideOne(contents, pendingUpdates, key, value);
      OverrideEntry(View(), key, value);
      pendingUpdates := pendingUpdates[key := value];
    }

    /** The recursive batch update on the slice [lo, hi) of an array: builds the canonical tree that `Step` says, keeps
        every node of every older tree readable, and leaves behind the slice what `Step` says. */
    method UpdateBatch(r: Digest, batch: array<KV>, lo: nat, hi: nat, depth: nat, ghost m: Map)
      returns (res: Option<Digest>)
      requires Consistent() && depth <= KEY_SIZE && lo <= hi <= batch.Length && Ready(m, batch[lo..hi], depth)
      requires r == Root(hash, m, depth) && Stored(hash, store, m, depth)
      requires NodesIn(hash, universe, Step(m, batch[lo..hi], depth).after, depth)
      modifies this`store, this`cache, batch
      ensures Consistent() && Extends(old(store), store)
      ensures var s := Step(m, old(batch[lo..hi]), depth);
              && res == Some(Root(hash, s.after, depth)) && Stored(hash, store, s.after, depth)
              && Overwritten(old(batch[..]), batch[..], lo, hi, s.behind)
      ensures m == map[] ==> batch[..] == old(batch[..])
      decreases KEY_SIZE - depth, 3
    {
      hide NodesIn, ToWrites, Agree, Sorted, NodeData, Step, Groups, Ready, Root, Insertion, Override;
      ghost var b := batch[lo..hi];
      ghost var s := Step(m, b, depth);
      StepAtEnds(m, b, depth);
      if lo == hi {
        return Some(r);
      }
      StoredInUniverse(hash, universe, store, m, depth);
      EmptyRoot(hash, universe, m, depth);
      if depth >= KEY_SIZE {
        var last := batch[hi - 1];
        res := WriteOne(last, depth, s.after);
        return;
      }
      if r == EMPTY {
        if hi - lo == 1 {
          res := WriteOne(batch[lo], depth, s.after);
          return;
        }
        StepBelow(m, b, depth);
        res := Distribution(r, batch, lo, hi, depth, m, m);
      } else {
        StepBelow(m, b, depth);
        var joined, lo', hi', base := AbsorbLeaf(r, batch, lo, hi, depth, m);
        if joined.None? {
          return None;
        }
        res := Distribution(r, joined.value, lo', hi', depth, m, base);
      }
    }

    /** When the node at r is a leaf that the batch does not write, its entry joins the batch and the table starts
        empty. */
    method AbsorbLeaf(r: Digest, batch: array<KV>, lo: nat, hi: nat, depth: nat, ghost m: Map)
      returns (joined: Option<array<KV>>, lo': nat, hi': nat, ghost base: Map)
      requires Consistent() && depth < KEY_SIZE && lo < hi <= batch.Length && Ready(m, batch[lo..hi], depth)
      requires m != map[] && r == Root(hash, m, depth) && Stored(hash, store, m, depth)
      modifies this`cache, batch
      ensures Consistent() && base == Base(m)
      ensures joined.Some? && lo' <= hi' <= joined.value.Length
      ensures joined.value[lo'..hi'] == Joined(m, old(batch[lo..hi]))
      ensures joined.value == batch || fresh(joined.value)
      ensures Foreign(m, old(batch[lo..hi])) ==>
        Overwritten(old(batch[..]), batch[..], lo, hi, Some(Joined(m, old(batch[lo..hi]))[hi - lo]))
      ensures !Foreign(m, old(batch[lo..hi])) ==> joined.value == batch && lo' == lo && hi' == hi
      ensures !Foreign(m, old(batch[lo..hi])) ==> batch[..] == old(batch[..])
    {
      hide ToWrites, Agree, Insertion, Override, Overwritten;
      ghost var b := batch[lo..hi];
      base := m;
      joined, lo', hi' := None, lo, hi;
      var loaded := LoadNode(r);
      if loaded.None? {
        return;
      }
      var data := loaded.value;
      assert data == NodeData(hash, m, depth);
      joined := Some(batch);
      if data[0] == NODE_LEAF {
        ReadyParts(m, b, depth);
        LeafParts(hash, m, depth);
        base := map[];
        var storedKey: Key := data[1..1 + KEY_SIZE];
        var found := ContainsKey(batch, lo, hi, storedKey);
        if !found {
          var all;
          all, lo', hi' := AddStored(batch, lo, hi, KV(storedKey, Some(data[1 + KEY_SIZE..])));
          joined := Some(all);
        }
      }
    }

    /** Storing or removing the single entry of a sub-tree that holds nothing else. */
    method WriteOne(e: KV, depth: nat, ghost m': Map) returns (res: Option<Digest>)
      requires Consistent() && depth <= KEY_SIZE
      requires m' == (if e.v.None? then map[] else map[e.k := e.v.value])
      requires NodesIn(hash, universe, m', depth)
      modifies this`store, this`cache
      ensures Consistent() && Extends(old(store), store)
      ensures res == Some(Root(hash, m', depth)) && Stored(hash, store, m', depth)
    {
      if e.v.None? {
        return Some(EMPTY);
      }
      assert TheKey(m') == e.k;
      assert NodeData(hash, m', depth) == LeafData(e.k, e.v.value);
      var h := StoreLeaf(e.k, e.v.value);
      res := Some(h);
    }

    /** The rest of the update once a leaf on the way has joined the batch: `base` is what the
        children table holds, the map itself for an internal node and nothing otherwise. */
    method Distribution(r: Digest, batch: array<KV>, lo: nat, hi: nat, depth: nat, ghost m: Map, ghost base: Map)
      returns (res: Option<Digest>)
      requires Consistent() && depth < KEY_SIZE && lo <= hi <= batch.Length && Ready(base, batch[lo..hi], depth)
      requires r == Root(hash, m, depth) && Stored(hash, store, m, depth)
      requires base == Base(m)
      requires NodesIn(hash, universe, Groups(base, batch[lo..hi], depth).after, depth)
      modifies this`store, this`cache, batch
      ensures Consistent() && Extends(old(store), store)
      ensures var s := Groups(base, old(batch[lo..hi]), depth);
              && res == Some(Root(hash, s.after, depth)) && Stored(hash, store, s.after, depth)
              && Overwritten(old(batch[..]), batch[..], lo, hi, s.behind)
      ensures base == map[] ==> batch[..] == old(batch[..])
      decreases KEY_SIZE - depth, 2
    {
      hide ToWrites, Agree, Sorted, Groups, Overwritten;
      ghost var b := batch[lo..hi];
      var children := EmptyChildren();
      StoredInUniverse(hash, universe, store, m, depth);
      EmptyRoot(hash, universe, m, depth);
      EmptyTable(hash, depth);
      if r != EMPTY {
        var loaded := LoadNode(r);
        if loaded.None? {
          return None;
        }
        var data := loaded.value;
        assert data == NodeData(hash, m, depth);
        if data[0] == NODE_INTERNAL {
          DecodeChildren(data, children, ChildRoots(hash, m, depth));
        }
      }
      assert children[..] == ChildRoots(hash, base, depth);
      forall c: Byte ensures Stored(hash, store, Sub(base, depth, c), depth + 1) {
        NodesInSub(hash, Held(hash, store), base, depth, c);
      }
      var ok := UpdateChildren(children, batch, lo, hi, depth, base);
      if !ok {
        return None;
      }
      GroupsAgree(base, b, depth);
      res := Collapse(children, depth, Groups(base, b, depth).after);
    }

    method UpdateChildren(children: array<Digest>, batch: array<KV>, lo: nat, hi: nat, depth: nat, ghost base: Map)
      returns (ok: bool)
      requires Consistent() && depth < KEY_SIZE && lo <= hi <= batch.Length && Ready(base, batch[lo..hi], depth)
      requires children[..] == ChildRoots(hash, base, depth) && SubsStored(hash, store, base, depth)
      requires NodesIn(hash, universe, Groups(base, batch[lo..hi], depth).after, depth)
      modifies this`store, this`cache, children, batch
      ensures Consistent() && Extends(old(store), store)
      ensures var s := Groups(base, old(batch[lo..hi]), depth);
              && ok && children[..] == ChildRoots(hash, s.after, depth) && SubsStored(hash, store, s.after, depth)
              && Overwritten(old(batch[..]), batch[..], lo, hi, s.behind)
      ensures base == map[] ==> batch[..] == old(batch[..])
      decreases KEY_SIZE - depth, 1
    {
      hide NodesIn, Ready, Groups, Step, Overwritten, SubsStored, ChildRoots, Root, Sub, Replace, Fresh, RunLength,
        Remaining;
      ghost var b, was := batch[lo..hi], batch[..];
      ghost var all, m, behind := Groups(base, b, depth), base, None;
      AllFresh(b, depth);
      NothingOverwritten(was, lo, hi);
      GroupsOfNothing(base, depth);
      var start := lo;
      while start < hi
        invariant lo <= start <= hi && Consistent() && Extends(old(store), store)
        invariant Ready(m, batch[start..hi], depth)
        invariant start < hi ==> Groups(m, batch[start..hi], depth) == all && behind == None
        invariant start == hi ==> Run(m, behind) == all
        invariant Overwritten(was, batch[..], lo, hi, behind)
        invariant base == map[] ==> batch[..] == was && Fresh(m, batch[start..hi], depth)
        invariant children.Length == ARITY && children[..] == ChildRoots(hash, m, depth)
        invariant SubsStored(hash, store, m, depth)
      {
        ghost var rest, before := batch[start..hi], batch[..];
        var childIdx := batch[start].k[depth];
        var end := GroupEnd(batch, start, hi, depth);
        ghost var s := Step(Sub(m, depth, childIdx), batch[start..end], depth + 1);
        assert rest[..end - start] == batch[start..end] && before[start..hi] == rest;
        GroupsNext(m, rest, depth);
        NodesInSub(hash, universe, all.after, depth, childIdx);
        ok := UpdateGroup(children, childIdx, batch, start, end, depth, m, s);
        if !ok {
          return;
        }
        NextGroup(was, before, batch[..], lo, start, end, hi, s.behind);
        assert batch[..][end..hi] == batch[end..hi] && batch[hi..hi] == [];
        start, m, behind := end, Replace(m, depth, childIdx, s.after), if end == hi then s.behind else None;
      }
      ok := true;
    }

    /** One group of the batch: the recursive call for its child. */
    method UpdateGroup(children: array<Digest>, childIdx: Byte, batch: array<KV>, lo: nat, hi: nat, depth: nat,
            ghost m: Map, ghost s: Run)
      returns (ok: bool)
      requires Consistent() && depth < KEY_SIZE && lo < hi <= batch.Length
      requires Ready(Sub(m, depth, childIdx), batch[lo..hi], depth + 1)
      requires s == Step(Sub(m, depth, childIdx), batch[lo..hi], depth + 1)
      requires NodesIn(hash, universe, s.after, depth + 1) && forall k :: k in s.after ==> k[depth] == childIdx
      requires children.Length == ARITY && children[..] == ChildRoots(hash, m, depth)
        && SubsStored(hash, store, m, depth)
      modifies this`store, this`cache, children, batch
      ensures Consistent() && Extends(old(store), store)
      ensures ok && children[..] == ChildRoots(hash, Replace(m, depth, childIdx, s.after), depth)
      ensures SubsStored(hash, store, Replace(m, depth, childIdx, s.after), depth)
      ensures Overwritten(old(batch[..]), batch[..], lo, hi, s.behind)
      ensures Sub(m, depth, childIdx) == map[] ==> batch[..] == old(batch[..])
      decreases KEY_SIZE - depth, 0
    {
      hide Ready, Step, NodesIn, Overwritten, Replace, Root;
      ghost var sub := Sub(m, depth, childIdx);
      var res := UpdateBatch(children[childIdx], batch, lo, hi, depth + 1, sub);
      if res.None? {
        return false;
      }
      SubsStoredMonotone(hash, old(store), store, m, depth);
      SubsReplaced(hash, store, m, depth, childIdx, s.after);
      TableStep(hash, m, depth, childIdx, s.after);
      children[childIdx] := res.value;
      ok := true;
    }

    /** Counting the non-empty children, then: nothing, a lone leaf passed up, or an internal node. */
    method Collapse(children: array<Digest>, depth: nat, ghost m': Map) returns (res: Option<Digest>)
      requires Consistent() && depth < KEY_SIZE && Agree(m'.Keys, depth)
      requires children[..] == ChildRoots(hash, m', depth) && SubsStored(hash, store, m', depth)
      requires NodesIn(hash, universe, m', depth)
      modifies this`store, this`cache
      ensures Consistent() && Extends(old(store), store)
      ensures res == Some(Root(hash, m', depth)) && Stored(hash, store, m', depth)
    {
      var activeCount, lastChildIdx, anotherIdx := CountActive(children[..]);
      if activeCount == 0 {
        CollapseNone(hash, universe, m', depth);
        return Some(EMPTY);
      }
      if activeCount == 1 {
        var child := children[lastChildIdx];
        CollapseOne(hash, universe, m', depth, lastChildIdx);
        assert Stored(hash, store, Sub(m', depth, lastChildIdx), depth + 1);
        var data := LoadNode(child);
        if data.Some? && data.value[0] == NODE_LEAF {
          LoneLeaf(hash, store, m', depth, lastChildIdx);
          return Some(child);
        }
      } else {
        CollapseTwo(hash, m', depth, anotherIdx, lastChildIdx);
      }
      var h := StoreInternal(children[..]);
      SubsStoredMonotone(hash, old(store), store, m', depth);
      res := Some(h);
    }

    // -------------------------------------------------------------- entry points

    /** `Commit` ends in the map that `Committed` says: the one that readers saw, unless a write that changes something
        is written over in the batch. */
    method Commit() returns (res: Option<Digest>)
      requires Valid() && NodesIn(hash, universe, Committed(contents, pendingUpdates), 0)
      modifies this
      ensures Valid() && pendingUpdates == map[] && contents == Committed(old(contents), old(pendingUpdates)) == View()
      ensures View() == old(View()) <==> LossHarmless(old(contents), old(pendingUpdates))
      ensures Undisturbed(old(contents), SortedWrites(old(pendingUpdates)), 0, true) ==> View() == old(View())
      ensures res == Some(root) && Extends(old(store), store) && TopStored()
    {
      hide TopStored, NodesIn, Step, Sorted, Ready, LossHarmless, Undisturbed, Root, Override, LostKeys, SortedWrites;
      ghost var m, w := contents, pendingUpdates;
      OverrideAlgebra(Committed(m, w), map[], map[]);
      CommitKeeps(m, w);
      CommitLosesNothing(m, w);
      CommitReady(m, w);
      if pendingUpdates == map[] {
        CommitNothing(m);
        contents := Committed(m, w);
        RootStored();
        return Some(root);
      }
      var batch := SortedBatch(pendingUpdates);
      assert batch[0..batch.Length] == batch[..];
      res := UpdateBatch(root, batch, 0, batch.Length, 0, contents);
      if res.None? {
        return;
      }
      root := res.value;
      contents := Committed(m, w);
      pendingUpdates := map[];
      RootStored();
    }

    /** One write alone is never lost. */
    method Update(key: Key, value: Option<Value>) returns (res: Option<Digest>)
      requires Valid() && NodesIn(hash, universe, Override(contents, map[key := value]), 0)
      modifies this`store, this`cache, this`root, this`contents
      ensures Valid() && contents == if value.Some? then old(contents)[key := value.value] else old(contents) - {key}
      ensures res == Some(root) && Extends(old(store), store) && TopStored()
    {
      hide TopStored, NodesIn, Step, Ready, Override, Root, Overwritten;
      var batch := new KV[1](i => KV(key, value));
      assert batch[0..1] == [KV(key, value)];
      SingleKept(contents, KV(key, value));
      res := UpdateBatch(root, batch, 0, 1, 0, contents);
      if res.None? {
        return;
      }
      root := res.value;
      OverrideEntry(contents, key, value);
      contents := Override(contents, map[key := value]);
      RootStored();
    }
  }

  /** The end of the run of keys that share the byte of the first one. */
  method GroupEnd(batch: array<KV>, start: nat, hi: nat, depth: nat) returns (end: nat)
    requires start < hi <= batch.Length && depth < KEY_SIZE
    ensures start < end <= hi && end - start == RunLength(batch[start..hi], depth)
  {
    hide RunLength;
    ghost var b := batch[start..hi];
    end := start + 1;
    while end < hi && batch[end].k[depth] == batch[start].k[depth]
      invariant start < end <= hi
      invariant forall i :: 0 <= i < end - start ==> b[i].k[depth] == b[0].k[depth]
    {
      end := end + 1;
    }
    RunIs(b, end - start, depth);
  }

  /** Ranging over the pending map, in any order. */
  method BatchOf(w: Writes) returns (batch: array<KV>)
    ensures fresh(batch) && Distinct(batch[..]) && ToWrites(batch[..]) == w
  {
    hide Distinct, ToWrites, Splits;
    batch := new KV[|w|];
    var rest, n := w, 0;
    NoneTaken(w);
    while rest != map[]
      invariant n + |rest| == |w| == batch.Length
      invariant Distinct(batch[..n]) && Splits(ToWrites(batch[..n]), rest, w)
      decreases |rest|
    {
      var k :| k in rest;
      ghost var b := batch[..n];
      SplitStep(ToWrites(b), rest, w, k);
      DistinctAppend(b, KV(k, rest[k]));
      batch[n] := KV(k, rest[k]);
      assert batch[..n + 1] == b + [KV(k, rest[k])];
      rest, n := rest - {k}, n + 1;
    }
    AllTaken(ToWrites(batch[..n]), w);
    assert batch[..n] == batch[..];
  }

  lemma NoneTaken(w: Writes)
    ensures Distinct([]) && Splits(ToWrites([]), w, w)
  {
    assert map[] + w == w;
  }

  lemma AllTaken(done: Writes, w: Writes)
    requires Splits(done, map[], w)
    ensures done == w
  {
    assert done + map[] == done;
  }

  /** The pending writes in key order. */
  method SortedBatch(w: Writes) returns (batch: array<KV>)
    ensures fresh(batch) && batch[..] == SortedWrites(w)
  {
    hide InOrder, Sorted, Distinct, SortedWrites, ToWrites;
    batch := BatchOf(w);
    ghost var b := batch[..];
    InOrderSorts(b);
    SortSlice(batch, 0, batch.Length);
    assert b[..0] + InOrder(b[0..|b|]) + b[|b|..] == InOrder(b) by { assert b[0..|b|] == b; }
    SortedUnique(batch[..], SortedWrites(w));
  }

  ghost predicate Splits(done: Writes, rest: Writes, w: Writes) {
    done.Keys !! rest.Keys && done + rest == w
  }

  lemma SplitStep(done: Writes, rest: Writes, w: Writes, k: Key)
    requires Splits(done, rest, w) && k in rest
    ensures k !in done && Splits(done[k := rest[k]], rest - {k}, w) && |rest - {k}| == |rest| - 1
  {
    assert (rest - {k}).Keys == rest.Keys - {k};
  }

  /** The number of non-empty children, and the last of them. */
  method CountActive(children: Children) returns (activeCount: nat, lastChildIdx: int, ghost anotherIdx: int)
    ensures activeCount == CountTrue(Flags(children))
    ensures activeCount > 0 ==> 0 <= lastChildIdx < ARITY && children[lastChildIdx] != EMPTY
    ensures activeCount == 0 ==> forall c :: 0 <= c < ARITY ==> children[c] == EMPTY
    ensures activeCount == 1 ==> forall c :: 0 <= c < ARITY && c != lastChildIdx ==> children[c] == EMPTY
    ensures activeCount > 1 ==> 0 <= anotherIdx < lastChildIdx && children[anotherIdx] != EMPTY
  {
    activeCount, lastChildIdx, anotherIdx := 0, -1, -1;
    for i := 0 to ARITY
      invariant activeCount == CountTrue(Flags(children)[..i])
      invariant activeCount > 0 ==> 0 <= lastChildIdx < i && children[lastChildIdx] != EMPTY
      invariant activeCount == 0 ==> forall c :: 0 <= c < i ==> children[c] == EMPTY
      invariant activeCount == 1 ==> forall c :: 0 <= c < i && c != lastChildIdx ==> children[c] == EMPTY
      invariant activeCount > 1 ==> 0 <= anotherIdx < lastChildIdx && children[anotherIdx] != EMPTY
    {
      FlagsStep(children, i);
      if children[i] != EMPTY {
        activeCount := activeCount + 1;
        anotherIdx := lastChildIdx;
        lastChildIdx := i;
      }
    }
    assert Flags(children)[..ARITY] == Flags(children);
  }

  /** Two trees, whatever their histories: the roots agree exactly when the maps do. */
  lemma RootsDecideMaps(a: SMT, b: SMT)
    requires a.Valid() && b.Valid() && a.hash == b.hash && a.universe == b.universe
    ensures a.root == b.root <==> a.contents == b.contents
  {
    StoredInUniverse(a.hash, a.universe, a.store, a.contents, 0);
    StoredInUniverse(b.hash, b.universe, b.store, b.contents, 0);
    if a.root == b.root {
      var x, y := Binding(a.hash, a.universe, a.contents, b.contents, 0);
    }
  }

  // ---------------------------------------------------------------- a write that is lost

  function KeyOf(a: Byte, b: Byte): Key {
    [a, b] + seq(30, _ => 0)
  }

  /** Committed keys 01 00.. and 03.., pending 01 80.. and 02..: the leaf 01 00.. joins the batch of the first group,
      over the write of 02.., which readers saw before `Commit` and no longer see after it. */
  lemma WriteLost(x: Value, y: Value)
    ensures var m, w := map[KeyOf(1, 0) := x, KeyOf(3, 0) := x], map[KeyOf(1, 128) := Some(y), KeyOf(2, 0) := Some(y)];
      KeyOf(2, 0) in Override(m, w) && KeyOf(2, 0) !in Committed(m, w)
  {
    hide ToWrites, Step, Lost, LostGroups, SortedWrites, Override;
    var a, c, a', b := KeyOf(1, 0), KeyOf(3, 0), KeyOf(1, 128), KeyOf(2, 0);
    FourKeys();
    var m: Map, w: Writes := map[a := x, c := x], map[a' := Some(y), b := Some(y)];
    var batch := [KV(a', Some(y)), KV(b, Some(y))];
    PairSorted(a', b, w, Some(y), Some(y));
    SortedUnique(SortedWrites(w), batch);
    SecondLost(m, batch, a, c, x);
    CommitKeeps(m, w);
    Dropped(m, w, LostKeys(m, w), b);
  }

  lemma FourKeys()
    ensures KeyOf(1, 0)[0] == KeyOf(1, 128)[0] == 1 && KeyOf(2, 0)[0] == 2 && KeyOf(3, 0)[0] == 3
    ensures KeyOf(1, 0)[1] == 0 && KeyOf(1, 128)[1] == 128
  {
  }

  lemma PairSorted(j: Key, k: Key, w: Writes, u: Option<Value>, v: Option<Value>)
    requires j[0] < k[0] && w == map[j := u, k := v]
    ensures Sorted([KV(j, u), KV(k, v)]) && ToWrites([KV(j, u), KV(k, v)]) == w
  {
    LessByByte(j, k, 0);
    SingleWrite(KV(j, u));
    WritesAppend([KV(j, u)], [KV(k, v)]);
    SingleWrite(KV(k, v));
    assert [KV(j, u), KV(k, v)] == [KV(j, u)] + [KV(k, v)];
  }

  /** Two groups of one write each, and the first meets a leaf that it does not write. */
  lemma SecondLost(m: Map, b: seq<KV>, a: Key, c: Key, x: Value)
    requires m == map[a := x, c := x] && |b| == 2 && a[0] == b[0].k[0] < b[1].k[0] && a[0] != c[0] && a != b[0].k
    ensures b[1].k in Lost(m, b, 0)
  {
    hide ToWrites, Sorted, Insertion;
    var sub := Sub(m, 0, a[0]);
    assert m.Keys == {a, c} && |m| == 2;
    assert sub == map[a := x] && |sub| == 1;
    OneEntry(sub, TheKey(sub));
    var g := b[..1];
    assert g == [b[0]] && RunLength(b, 0) == 1;
    SingleWrite(b[0]);
    assert Step(sub, g, 1).behind.Some?;
  }

  lemma Dropped(m: Map, w: Writes, l: set<Key>, k: Key)
    requires k !in m && k in w && k in l && w[k].Some?
    ensures k in Override(m, w) && k !in Override(m, w - l)
  {
  }
}
