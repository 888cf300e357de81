/** What a batch update does when sub-batches share one array.

    A sub-batch is a slice of its caller's array.  When its group meets a leaf that the batch does not write, the
    leaf is appended to the slice, over the entry behind it, and the slice is sorted with it.  The caller then goes on
    with the greatest entry of that slice in place of the one that stood there.  All this is followed here on values.
 */
module SmtInPlace {
  import opened Words
  import opened SmtNodes
  import opened SmtModel
  import opened SmtBatch

  /** The map after an update, and what was written over the entry behind the batch, if anything. */
  datatype Run = Run(after: Map, behind: Option<KV>)

  /** The map with its entries of byte c at depth d replaced by s. */
  function Replace(m: Map, d: nat, c: Byte, s: Map): Map
    requires d < KEY_SIZE
  {
    (map k | k in m && k[d] != c :: m[k]) + s
  }

  /** The length of the run of keys that share the byte of the first one. */
  function RunLength(b: seq<KV>, d: nat): (n: nat)
    requires b != [] && d < KEY_SIZE
    ensures 1 <= n <= |b|
    ensures forall i :: 0 <= i < n ==> b[i].k[d] == b[0].k[d]
    ensures n < |b| ==> b[n].k[d] != b[0].k[d]
  {
    if |b| == 1 || b[1].k[d] != b[0].k[d] then 1 else 1 + RunLength(b[1..], d)
  }

  /** The entry of a leaf. */
  ghost function Entry(m: Map): KV
    requires |m| == 1
  {
    KV(TheKey(m), Some(m[TheKey(m)]))
  }

  /** `updateBatchParallel` for the tree of m. */
  ghost function Step(m: Map, b: seq<KV>, d: nat): Run
    requires d <= KEY_SIZE
    decreases KEY_SIZE - d, 1, 0
  {
    if b == [] then Run(m, None)
    else if d == KEY_SIZE then Run(Override(map[], ToWrites([b[|b| - 1]])), None)
    else if |m| == 0 && |b| == 1 then Run(Override(map[], ToWrites(b)), None)
    else if |m| == 1 && TheKey(m) !in ToWrites(b) then
      var joined := Insertion(b, Entry(m));
      Run(Groups(map[], joined, d).after, Some(joined[|b|]))
    else Groups(if |m| == 1 then map[] else m, b, d)
  }

  /** The loop over the groups of the batch: what is left of it, after the entry behind a group was written over. */
  ghost function Groups(m: Map, b: seq<KV>, d: nat): Run
    requires d < KEY_SIZE
    decreases KEY_SIZE - d, 0, |b|
  {
    if b == [] then Run(m, None) else
      var c, n := b[0].k[d], RunLength(b, d);
      var r := Step(Sub(m, d, c), b[..n], d + 1);
      var m1 := Replace(m, d, c, r.after);
      if n == |b| then Run(m1, r.behind) else Groups(m1, Remaining(b, n, r.behind), d)
  }

  function Remaining(b: seq<KV>, n: nat, behind: Option<KV>): (r: seq<KV>)
    requires n < |b|
    ensures |r| == |b| - n
  {
    if behind.Some? then [behind.value] + b[n + 1..] else b[n..]
  }

  // ---------------------------------------------------------------- what gets lost

  /** The keys of the writes that are written over before they are read. */
  ghost function Lost(m: Map, b: seq<KV>, d: nat): set<Key>
    requires d <= KEY_SIZE
    decreases KEY_SIZE - d, 1, 0
  {
    if b == [] || d == KEY_SIZE || (|m| == 0 && |b| == 1) then {}
    else if |m| == 1 && TheKey(m) !in ToWrites(b) then LostGroups(map[], Insertion(b, Entry(m)), d)
    else LostGroups(if |m| == 1 then map[] else m, b, d)
  }

  ghost function LostGroups(m: Map, b: seq<KV>, d: nat): set<Key>
    requires d < KEY_SIZE
    decreases KEY_SIZE - d, 0, |b|
  {
    if b == [] then {} else
      var c, n := b[0].k[d], RunLength(b, d);
      var r := Step(Sub(m, d, c), b[..n], d + 1);
      Lost(Sub(m, d, c), b[..n], d + 1)
      + if n == |b| then {}
        else (if r.behind.Some? then {b[n].k} else {})
             + LostGroups(Replace(m, d, c, r.after), Remaining(b, n, r.behind), d)
  }

  /** No group but the last one at every level meets a leaf that the batch does not write: then nothing is written
      over.  `last` tells whether the batch ends where its array does. */
  ghost predicate Undisturbed(m: Map, b: seq<KV>, d: nat, last: bool)
    requires d <= KEY_SIZE
    decreases KEY_SIZE - d, 1
  {
    if b == [] || d == KEY_SIZE || |m| == 0 then true
    else if |m| == 1 then last || TheKey(m) in ToWrites(b)
    else ChildrenUndisturbed(m, b, d, last)
  }

  ghost predicate ChildrenUndisturbed(m: Map, b: seq<KV>, d: nat, last: bool)
    requires d < KEY_SIZE && b != []
    decreases KEY_SIZE - d, 0
  {
    forall c: Byte :: Undisturbed(Sub(m, d, c), GroupOf(b, d, c), d + 1, last && b[|b| - 1].k[d] == c)
  }

  /** The entries of a batch with byte c at depth d. */
  function GroupOf(b: seq<KV>, d: nat, c: Byte): seq<KV>
    requires d < KEY_SIZE
  {
    if b == [] then [] else (if b[0].k[d] == c then [b[0]] else []) + GroupOf(b[1..], d, c)
  }

  /** What the updater is called with. */
  ghost predicate Ready(m: Map, b: seq<KV>, d: nat) {
    d <= KEY_SIZE && Sorted(b) && Agree(m.Keys + ToWrites(b).Keys, d)
  }

  // ---------------------------------------------------------------- updates of nothing disturb nothing

  lemma {:induction false} WritesKeys(b: seq<KV>, k: Key)
    ensures k in ToWrites(b) <==> exists i :: 0 <= i < |b| && b[i].k == k
  {
    if b != [] {
      WritesKeys(b[..|b| - 1], k);
      if k in ToWrites(b) && k != b[|b| - 1].k {
        var i :| 0 <= i < |b| - 1 && b[..|b| - 1][i].k == k;
        assert b[i].k == k;
      }
    }
  }

  /** The first run and what is behind it. */
  lemma RunSplit(b: seq<KV>, d: nat)
    requires b != [] && d < KEY_SIZE && Sorted(b) && Agree(ToWrites(b).Keys, d)
    ensures var n := RunLength(b, d);
      Sorted(b[..n]) && Sorted(b[n..]) && ToWrites(b) == ToWrites(b[..n]) + ToWrites(b[n..]) &&
      ToWrites(b[..n]).Keys !! ToWrites(b[n..]).Keys &&
      (forall k :: k in ToWrites(b[..n]) ==> k[d] == b[0].k[d]) &&
      (forall k :: k in ToWrites(b[n..]) ==> k[d] > b[0].k[d])
  {
    hide Sorted, Grouped, Agree, ToWrites, RunLength;
    var n := RunLength(b, d);
    SliceSorted(b, 0, n);
    SliceSorted(b, n, |b|);
    BytesSorted(b, d);
    RunBytes(b, n, d);
    assert b == b[..n] + b[n..] && b[0..n] == b[..n] && b[n..|b|] == b[n..];
    WritesAppend(b[..n], b[n..]);
  }

  lemma RunBytes(b: seq<KV>, n: nat, d: nat)
    requires d < KEY_SIZE && 0 < n <= |b| && Grouped(b, d)
    requires forall i :: 0 <= i < n ==> b[i].k[d] == b[0].k[d]
    requires n < |b| ==> b[n].k[d] != b[0].k[d]
    ensures forall k :: k in ToWrites(b[..n]) ==> k[d] == b[0].k[d]
    ensures forall k :: k in ToWrites(b[n..]) ==> k[d] > b[0].k[d]
  {
    hide ToWrites;
    forall k | k in ToWrites(b[..n]) ensures k[d] == b[0].k[d] {
      WritesKeys(b[..n], k);
    }
    forall k | k in ToWrites(b[n..]) ensures k[d] > b[0].k[d] {
      WritesKeys(b[n..], k);
      var i :| 0 <= i < |b[n..]| && b[n..][i].k == k;
      assert b[0].k[d] <= b[n].k[d] <= b[n + i].k[d];
    }
  }

  /** The entry behind the first run, and the others. */
  lemma BehindRun(b: seq<KV>, d: nat)
    requires b != [] && d < KEY_SIZE && Sorted(b) && Agree(ToWrites(b).Keys, d) && RunLength(b, d) < |b|
    ensures var n := RunLength(b, d);
      ToWrites(b[n..]) == map[b[n].k := b[n].v] + ToWrites(b[n + 1..]) && Sorted(b[n + 1..]) &&
      b[n].k !in ToWrites(b[n + 1..])
  {
    hide Sorted, Agree, ToWrites, RunLength;
    var n := RunLength(b, d);
    Tail(b, n);
    FirstNotLater(b, n);
    WritesAppend([b[n]], b[n + 1..]);
    SingleWrite(b[n]);
  }

  lemma Tail(b: seq<KV>, n: nat)
    requires n < |b| && Sorted(b)
    ensures b[n..] == [b[n]] + b[n + 1..] && Sorted(b[n + 1..])
  {
  }

  lemma FirstNotLater(b: seq<KV>, n: nat)
    requires Sorted(b) && n < |b|
    ensures b[n].k !in ToWrites(b[n + 1..])
  {
    var t := b[n + 1..];
    hide ToWrites;
    forall i | 0 <= i < |t| ensures t[i].k != b[n].k {
      assert Less(b[n].k, b[n + 1 + i].k);
      LessIrreflexive(b[n].k);
    }
    NotWritten(t, b[n].k);
  }

  lemma SortedCons(x: KV, s: seq<KV>)
    requires Sorted(s) && forall i :: 0 <= i < |s| ==> Less(x.k, s[i].k)
    ensures Sorted([x] + s)
  {
  }

  lemma {:induction false} LessByByte(a: seq<Byte>, b: seq<Byte>, d: nat)
    requires |a| == |b| && d < |a| && a[..d] == b[..d] && a[d] < b[d]
    ensures Less(a, b)
  {
    if d > 0 {
      assert a[0] == a[..d][0] && b[0] == b[..d][0];
      assert a[1..][..d - 1] == a[..d][1..] && b[1..][..d - 1] == b[..d][1..];
      LessByByte(a[1..], b[1..], d - 1);
    }
  }

  lemma ReplaceSub(m: Map, d: nat, c: Byte, s: Map, c': Byte)
    requires d < KEY_SIZE && forall k :: k in s ==> k[d] == c
    ensures Sub(Replace(m, d, c, s), d, c') == if c' == c then s else Sub(m, d, c')
  {
  }

  /** Overriding one sub-map by writes of its byte is overriding the map by them. */
  lemma ReplaceOverride(m: Map, d: nat, c: Byte, w: Writes)
    requires d < KEY_SIZE && forall k :: k in w ==> k[d] == c
    ensures Replace(m, d, c, Override(Sub(m, d, c), w)) == Override(m, w)
  {
  }

  /** A write that changes nothing. */
  ghost predicate Redundant(m: Map, e: KV) {
    if e.v.Some? then e.k in m && m[e.k] == e.v.value else e.k !in m
  }

  lemma RedundantOverride(m: Map, e: KV, w: Writes, l: set<Key>)
    requires Redundant(m, e) && e.k !in l
    ensures Override(m, (map[e.k := e.v] + w) - l) == Override(m, w - l)
  {
  }

  lemma OverrideTwice(m: Map, w: Writes, l: set<Key>, w': Writes, l': set<Key>)
    requires w.Keys !! w'.Keys && l <= w.Keys && l' <= w'.Keys
    ensures Override(Override(m, w - l), w' - l') == Override(m, (w + w') - (l + l'))
  {
  }

  /** What an update amounts to: the map overridden by all writes but the lost ones.  An entry that it wrote over
      something is one that is in the map already. */
  ghost predicate Exact(m: Map, b: seq<KV>, r: Run, lost: set<Key>) {
    && lost <= ToWrites(b).Keys && (b != [] ==> b[0].k !in lost)
    && r.after == Override(m, ToWrites(b) - lost)
    && (r.behind.Some? ==>
         b != [] && r.behind.value.k in m.Keys + ToWrites(b).Keys && Redundant(r.after, r.behind.value))
  }

  lemma {:induction false} StepExact(m: Map, b: seq<KV>, d: nat)
    requires Ready(m, b, d)
    ensures Exact(m, b, Step(m, b, d), Lost(m, b, d))
    ensures m == map[] ==> Step(m, b, d).behind == None && Lost(m, b, d) == {}
    decreases KEY_SIZE - d, 1, 0
  {
    hide ToWrites, Sorted, Agree, Groups, LostGroups, Insertion, Exact, Override;
    if b == [] {
      ExactNothing(m, b);
    } else if d == KEY_SIZE {
      ExactBottom(m, b);
    } else if |m| == 0 && |b| == 1 {
      assert m == map[];
      ExactAll(m, b, Override(map[], ToWrites(b)));
    } else if |m| == 1 && TheKey(m) !in ToWrites(b) {
      Absorbs(m, b, d);
    } else if |m| == 1 {
      ReadyPart(m, map[], b, d);
      NoSubs(d);
      GroupsExact(map[], b, d);
      ExactOwnLeaf(m, b, Groups(map[], b, d));
    } else {
      if m == map[] { NoSubs(d); }
      GroupsExact(m, b, d);
    }
  }

  lemma ExactNothing(m: Map, b: seq<KV>)
    requires b == []
    ensures Exact(m, b, Run(m, None), {})
  {
    NothingWritten(m, b);
    assert ToWrites(b) - {} == ToWrites(b);
  }

  lemma ExactBottom(m: Map, b: seq<KV>)
    requires b != [] && Ready(m, b, KEY_SIZE)
    ensures Exact(m, b, Run(Override(map[], ToWrites([b[|b| - 1]])), None), {})
  {
    OnlyKeyAtBottom(m, b);
    SingleWrite(b[|b| - 1]);
    assert ToWrites(b) - {} == ToWrites(b);
  }

  lemma ExactAll(m: Map, b: seq<KV>, after: Map)
    requires b != [] && after == Override(m, ToWrites(b))
    ensures Exact(m, b, Run(after, None), {})
  {
    assert ToWrites(b) - {} == ToWrites(b);
  }

  lemma ExactOwnLeaf(m: Map, b: seq<KV>, r: Run)
    requires |m| == 1 && TheKey(m) in ToWrites(b) && b != [] && Exact(map[], b, r, {}) && r.behind == None
    ensures Exact(m, b, r, {})
  {
    assert ToWrites(b) - {} == ToWrites(b);
    OwnLeaf(m, ToWrites(b));
  }

  lemma ExactJoined(m: Map, b: seq<KV>, joined: seq<KV>, after: Map)
    requires |m| == 1 && b != [] && joined != [] && Exact(map[], joined, Run(after, None), {})
    requires ToWrites(joined) == ToWrites(b)[TheKey(m) := Some(m[TheKey(m)])]
    requires Override(map[], ToWrites(joined)) == Override(m, ToWrites(b))
    ensures Exact(m, b, Run(after, Some(joined[|joined| - 1])), {})
  {
    LastWritten(joined);
    assert ToWrites(joined) - {} == ToWrites(joined) && ToWrites(b) - {} == ToWrites(b);
  }

  lemma ReadyPart(m: Map, base: Map, b: seq<KV>, d: nat)
    requires Ready(m, b, d) && base.Keys <= m.Keys
    ensures Ready(base, b, d)
  {
  }

  lemma LastWritten(b: seq<KV>)
    requires b != []
    ensures b[|b| - 1].k in ToWrites(b) && ToWrites(b)[b[|b| - 1].k] == b[|b| - 1].v
  {
  }

  lemma OwnLeaf(m: Map, w: Writes)
    requires |m| == 1 && TheKey(m) in w
    ensures Override(m, w) == Override(map[], w)
  {
    OneEntry(m, TheKey(m));
  }

  lemma JoinedReady(m: Map, b: seq<KV>, d: nat)
    requires Ready(m, b, d) && |m| == 1 && TheKey(m) !in ToWrites(b)
    ensures var joined := Insertion(b, Entry(m));
      Ready(map[], joined, d) && ToWrites(joined) == ToWrites(b)[TheKey(m) := Some(m[TheKey(m)])] &&
      Override(map[], ToWrites(joined)) == Override(m, ToWrites(b)) && joined != []
  {
    hide Insertion, ToWrites, Sorted;
    InsertionSorted(b, Entry(m));
    OneEntry(m, TheKey(m));
    LeafJoins(ToWrites(b), Entry(m));
    var none: Map := map[];
    assert none.Keys + ToWrites(Insertion(b, Entry(m))).Keys == m.Keys + ToWrites(b).Keys;
  }

  /** A leaf that the batch does not write: nothing of the batch is lost, and the entry behind it is overwritten with
      the greatest of leaf and batch. */
  lemma {:induction false} Absorbs(m: Map, b: seq<KV>, d: nat)
    requires Ready(m, b, d) && d < KEY_SIZE && b != [] && |m| == 1 && TheKey(m) !in ToWrites(b)
    ensures Exact(m, b, Step(m, b, d), Lost(m, b, d)) && Lost(m, b, d) == {}
    decreases KEY_SIZE - d, 0, |b| + 2
  {
    hide ToWrites, Sorted, Agree, Groups, LostGroups, Insertion, Exact, Override, Ready;
    var joined := Insertion(b, Entry(m));
    JoinedReady(m, b, d);
    NoSubs(d);
    GroupsExact(map[], joined, d);
    ExactJoined(m, b, joined, Groups(map[], joined, d).after);
  }

  lemma NoSubs(d: nat)
    requires d < KEY_SIZE
    ensures forall c: Byte :: Sub<Value>(map[], d, c) == map[]
  {
  }

  lemma {:induction false} GroupsExact(m: Map, b: seq<KV>, d: nat)
    requires d < KEY_SIZE && Ready(m, b, d)
    ensures Exact(m, b, Groups(m, b, d), LostGroups(m, b, d))
    ensures (forall i :: 0 <= i < |b| ==> Sub(m, d, b[i].k[d]) == map[]) ==>
      Groups(m, b, d).behind == None && LostGroups(m, b, d) == {}
    decreases KEY_SIZE - d, 0, |b|
  {
    hide ToWrites, Sorted, Agree, Step, Lost, Sub, Replace, Override, Exact, Ready, RunLength, Remaining;
    if b == [] {
      ExactNothing(m, b);
    } else {
      var c, n := b[0].k[d], RunLength(b, d);
      var sub, g := Sub(m, d, c), b[..n];
      FirstRun(m, b, d);
      StepExact(sub, g, d + 1);
      var r := Step(sub, g, d + 1);
      FirstDone(m, b, d, r, Lost(sub, g, d + 1));
      if n == |b| {
        assert b[..n] == b && Lost(sub, g, d + 1) + {} == Lost(sub, g, d + 1);
      } else {
        var m1, rest := Replace(m, d, c, r.after), Remaining(b, n, r.behind);
        RestReady(m, b, d, r, Lost(sub, g, d + 1));
        GroupsExact(m1, rest, d);
        RestDone(m, b, d, r, Lost(sub, g, d + 1), Groups(m1, rest, d), LostGroups(m1, rest, d));
        var behind := if r.behind.Some? then {b[n].k} else {};
        assert Lost(sub, g, d + 1) + behind + LostGroups(m1, rest, d) ==
          Lost(sub, g, d + 1) + (behind + LostGroups(m1, rest, d));
        if forall i :: 0 <= i < |b| ==> Sub(m, d, b[i].k[d]) == map[] {
          assert sub == map[];
          StaysFresh(m, b, d, r, Lost(sub, g, d + 1));
        }
      }
    }
  }

  /** The first group is ready for the child that it goes to. */
  lemma FirstRun(m: Map, b: seq<KV>, d: nat)
    requires d < KEY_SIZE && Ready(m, b, d) && b != []
    ensures Ready(Sub(m, d, b[0].k[d]), b[..RunLength(b, d)], d + 1)
    ensures Agree(ToWrites(b).Keys, d)
  {
    var sub, g := Sub(m, d, b[0].k[d]), b[..RunLength(b, d)];
    RunSplit(b, d);
    AgreeSub(m.Keys + ToWrites(b).Keys, sub.Keys + ToWrites(g).Keys, d, b[0].k[d]);
  }

  /** The first group alone. */
  lemma FirstDone(m: Map, b: seq<KV>, d: nat, r: Run, lost: set<Key>)
    requires d < KEY_SIZE && Ready(m, b, d) && b != [] && Agree(ToWrites(b).Keys, d)
    requires Exact(Sub(m, d, b[0].k[d]), b[..RunLength(b, d)], r, lost)
    ensures Exact(m, b[..RunLength(b, d)], Run(Replace(m, d, b[0].k[d], r.after), r.behind), lost)
    ensures forall k :: k in r.after ==> k[d] == b[0].k[d]
    ensures r.behind.Some? ==> r.behind.value.k[d] == b[0].k[d]
  {
    var c, g := b[0].k[d], b[..RunLength(b, d)];
    RunSplit(b, d);
    hide ToWrites, Sorted, Agree;
    ReplaceOverride(m, d, c, ToWrites(g) - lost);
  }

  /** The writes that are left, and that they go elsewhere. */
  lemma RestWrites(m: Map, b: seq<KV>, d: nat, r: Run, lost: set<Key>)
    requires d < KEY_SIZE && Ready(m, b, d) && b != [] && Agree(ToWrites(b).Keys, d)
    requires var n := RunLength(b, d); n < |b| && Exact(Sub(m, d, b[0].k[d]), b[..n], r, lost)
    ensures var n := RunLength(b, d); var rest := Remaining(b, n, r.behind);
      && Sorted(rest)
      && ToWrites(rest) == (if r.behind.Some? then map[r.behind.value.k := r.behind.value.v] + ToWrites(b[n + 1..])
                            else ToWrites(b[n..]))
      && ToWrites(rest).Keys <= m.Keys + ToWrites(b).Keys
  {
    hide ToWrites, Agree, RunLength, Exact, Sorted, Ready;
    var n := RunLength(b, d);
    ReadyParts(m, b, d);
    RunSplit(b, d);
    BehindRun(b, d);
    if r.behind.Some? {
      var x, t := r.behind.value, b[n + 1..];
      BehindInside(m, b, d, r, lost);
      WritesAppend([x], t);
      SingleWrite(x);
      forall i | 0 <= i < |t| ensures Less(x.k, t[i].k) {
        WrittenKey(t, i);
        AgreeTwo(m.Keys + ToWrites(b).Keys, x.k, t[i].k, d);
        LessByByte(x.k, t[i].k, d);
      }
      SortedCons(x, t);
    }
  }

  lemma BehindInside(m: Map, b: seq<KV>, d: nat, r: Run, lost: set<Key>)
    requires d < KEY_SIZE && Ready(m, b, d) && b != [] && Agree(ToWrites(b).Keys, d) && r.behind.Some?
    requires Exact(Sub(m, d, b[0].k[d]), b[..RunLength(b, d)], r, lost)
    ensures r.behind.value.k in m.Keys + ToWrites(b).Keys && r.behind.value.k[d] == b[0].k[d]
  {
    ReadyParts(m, b, d);
    RunSplit(b, d);
    hide ToWrites, Agree, RunLength, Sorted, Ready;
  }

  lemma AgreeTwo(keys: set<Key>, a: Key, b: Key, d: nat)
    requires Agree(keys, d) && a in keys && b in keys
    ensures a[..d] == b[..d]
  {
  }

  /** What is left of the batch is ready for the map with the first group done. */
  lemma RestReady(m: Map, b: seq<KV>, d: nat, r: Run, lost: set<Key>)
    requires d < KEY_SIZE && Ready(m, b, d) && b != [] && Agree(ToWrites(b).Keys, d)
    requires var n := RunLength(b, d); n < |b| && Exact(Sub(m, d, b[0].k[d]), b[..n], r, lost)
    ensures var n := RunLength(b, d);
      Ready(Replace(m, d, b[0].k[d], r.after), Remaining(b, n, r.behind), d)
  {
    RestWrites(m, b, d, r, lost);
    KeysAfter(m, b, d, r, lost);
    hide ToWrites, Sorted, RunLength, Remaining, Replace, Agree, Exact;
    var m1, rest := Replace(m, d, b[0].k[d], r.after), Remaining(b, RunLength(b, d), r.behind);
    PartAgrees(m.Keys + ToWrites(b).Keys, m1.Keys + ToWrites(rest).Keys, d);
  }

  lemma PartAgrees(keys: set<Key>, part: set<Key>, d: nat)
    requires Agree(keys, d) && part <= keys
    ensures Agree(part, d)
  {
  }

  lemma KeysAfter(m: Map, b: seq<KV>, d: nat, r: Run, lost: set<Key>)
    requires d < KEY_SIZE && Ready(m, b, d) && b != [] && Agree(ToWrites(b).Keys, d)
    requires Exact(Sub(m, d, b[0].k[d]), b[..RunLength(b, d)], r, lost)
    ensures Replace(m, d, b[0].k[d], r.after).Keys <= m.Keys + ToWrites(b).Keys
  {
    RunSplit(b, d);
    hide ToWrites, Sorted, RunLength, Agree, Ready;
  }

  /** The first group, then what is left. */
  lemma RestDone(m: Map, b: seq<KV>, d: nat, r: Run, lost: set<Key>, s: Run, lost': set<Key>)
    requires d < KEY_SIZE && Ready(m, b, d) && b != [] && Agree(ToWrites(b).Keys, d)
    requires var n := RunLength(b, d); n < |b| && Exact(Sub(m, d, b[0].k[d]), b[..n], r, lost)
    requires var n := RunLength(b, d); Exact(Replace(m, d, b[0].k[d], r.after), Remaining(b, n, r.behind), s, lost')
    ensures var n := RunLength(b, d);
      Exact(m, b, s, lost + (if r.behind.Some? then {b[n].k} else {}) + lost')
  {
    var n := RunLength(b, d);
    RestKeys(m, b, d, r, lost, s, lost');
    RestAfter(m, b, d, r, lost, s, lost');
    hide ToWrites, Sorted, RunLength, Agree, Override, Replace, Redundant, Ready, Sub, Remaining;
  }

  lemma RestAfter(m: Map, b: seq<KV>, d: nat, r: Run, lost: set<Key>, s: Run, lost': set<Key>)
    requires d < KEY_SIZE && Ready(m, b, d) && b != [] && Agree(ToWrites(b).Keys, d)
    requires var n := RunLength(b, d); n < |b| && Exact(Sub(m, d, b[0].k[d]), b[..n], r, lost)
    requires var n := RunLength(b, d); Exact(Replace(m, d, b[0].k[d], r.after), Remaining(b, n, r.behind), s, lost')
    ensures var n := RunLength(b, d); var l := lost + (if r.behind.Some? then {b[n].k} else {}) + lost';
      l <= ToWrites(b).Keys && s.after == Override(m, ToWrites(b) - l)
  {
    var n := RunLength(b, d);
    var m1, t := Replace(m, d, b[0].k[d], r.after), ToWrites(b[n + 1..]);
    RestWrites(m, b, d, r, lost);
    RunSplit(b, d);
    BehindRun(b, d);
    FirstDone(m, b, d, r, lost);
    RestKeys(m, b, d, r, lost, s, lost');
    hide ToWrites, Sorted, RunLength, Agree, Override, Replace, Redundant, Ready, Sub, Remaining;
    if r.behind.Some? {
      RestAfterLoss(m, ToWrites(b[..n]), lost, b[n], r.behind.value, t, lost', m1);
    } else {
      OverrideTwice(m, ToWrites(b[..n]), lost, ToWrites(b[n..]), lost');
      assert lost + {} + lost' == lost + lost';
    }
  }

  lemma RestAfterLoss(m: Map, w: Writes, lost: set<Key>, e: KV, x: KV, t: Writes, lost': set<Key>, m1: Map)
    requires m1 == Override(m, w - lost) && Redundant(m1, x) && x.k !in lost' && lost <= w.Keys
    requires lost' <= (map[x.k := x.v] + t).Keys && w.Keys !! (map[e.k := e.v] + t).Keys && e.k !in t
    ensures Override(m1, (map[x.k := x.v] + t) - lost')
         == Override(m, (w + (map[e.k := e.v] + t)) - (lost + {e.k} + lost'))
    ensures lost + {e.k} + lost' <= (w + (map[e.k := e.v] + t)).Keys
  {
    hide Override, Redundant;
    RedundantOverride(m1, x, t, lost');
    OverrideTwice(m, w, lost, t, lost');
    DropLost(w, map[e.k := e.v], t, lost, e.k, lost');
  }

  lemma DropLost(w: Writes, e: Writes, t: Writes, l: set<Key>, k: Key, l': set<Key>)
    requires e.Keys == {k} && k !in w && k !in t
    ensures (w + t) - (l + l') == (w + (e + t)) - (l + {k} + l')
  {
  }

  lemma RestKeys(m: Map, b: seq<KV>, d: nat, r: Run, lost: set<Key>, s: Run, lost': set<Key>)
    requires d < KEY_SIZE && Ready(m, b, d) && b != [] && Agree(ToWrites(b).Keys, d)
    requires var n := RunLength(b, d); n < |b| && Exact(Sub(m, d, b[0].k[d]), b[..n], r, lost)
    requires var n := RunLength(b, d); Exact(Replace(m, d, b[0].k[d], r.after), Remaining(b, n, r.behind), s, lost')
    ensures s.behind.Some? ==> s.behind.value.k in m.Keys + ToWrites(b).Keys && Redundant(s.after, s.behind.value)
    ensures var n := RunLength(b, d);
      b[0].k !in lost + (if r.behind.Some? then {b[n].k} else {}) + lost'
  {
    var n := RunLength(b, d);
    RestWrites(m, b, d, r, lost);
    RunSplit(b, d);
    BehindRun(b, d);
    FirstDone(m, b, d, r, lost);
    WrittenKey(b[..n], 0);
    hide ToWrites, Sorted, RunLength, Agree, Override;
  }

  lemma StaysFresh(m: Map, b: seq<KV>, d: nat, r: Run, lost: set<Key>)
    requires d < KEY_SIZE && Ready(m, b, d) && b != [] && Agree(ToWrites(b).Keys, d)
    requires var n := RunLength(b, d); n < |b| && Exact(Sub(m, d, b[0].k[d]), b[..n], r, lost) && r.behind == None
    requires forall i :: 0 <= i < |b| ==> Sub(m, d, b[i].k[d]) == map[]
    ensures var m1, rest := Replace(m, d, b[0].k[d], r.after), Remaining(b, RunLength(b, d), None);
      forall i :: 0 <= i < |rest| ==> Sub(m1, d, rest[i].k[d]) == map[]
  {
    var n, c := RunLength(b, d), b[0].k[d];
    RunSplit(b, d);
    FirstDone(m, b, d, r, lost);
    hide ToWrites, Sorted, RunLength, Agree, Override, Sub, Replace;
    forall i | 0 <= i < |b[n..]| ensures Sub(Replace(m, d, c, r.after), d, b[n..][i].k[d]) == map[] {
      WrittenKey(b[n..], i);
      assert b[n..][i] == b[n + i];
      ReplaceSub(m, d, c, r.after, b[n + i].k[d]);
    }
  }

  // ---------------------------------------------------------------- the main results

  /** What an update in place amounts to: the tree's map overridden by the writes that are not lost. */
  lemma LostExactly(m: Map, b: seq<KV>, d: nat)
    requires Ready(m, b, d)
    ensures Lost(m, b, d) <= ToWrites(b).Keys
    ensures Step(m, b, d).after == Override(m, ToWrites(b) - Lost(m, b, d))
  {
    StepExact(m, b, d);
  }

  /** The update does all that the batch says exactly when the lost writes would have changed nothing. */
  lemma KeepsExactly(m: Map, b: seq<KV>, d: nat)
    requires Ready(m, b, d)
    ensures Step(m, b, d).after == Override(m, ToWrites(b)) <==>
      forall k :: k in Lost(m, b, d) && k in ToWrites(b) ==> Redundant(m, KV(k, ToWrites(b)[k]))
  {
    LostExactly(m, b, d);
    var w, l := ToWrites(b), Lost(m, b, d);
    hide Step, Lost, ToWrites;
    if Override(m, w - l) == Override(m, w) {
      forall k | k in l ensures Redundant(m, KV(k, w[k])) {
        assert k in Override(m, w) <==> k in Override(m, w - l);
      }
    }
    if forall k :: k in l ==> Redundant(m, KV(k, w[k])) {
      forall k ensures k in Override(m, w) <==> k in Override(m, w - l) {
        if k in l { assert Redundant(m, KV(k, w[k])); }
      }
      forall k | k in Override(m, w) ensures Override(m, w)[k] == Override(m, w - l)[k] {
        if k in l { assert Redundant(m, KV(k, w[k])); }
      }
    }
  }

  lemma GroupEmpty(b: seq<KV>, d: nat, c: Byte)
    requires d < KEY_SIZE && forall i :: 0 <= i < |b| ==> b[i].k[d] != c
    ensures GroupOf(b, d, c) == []
  {
    if b != [] {
      var t := b[1..];
      forall i | 0 <= i < |t| ensures t[i].k[d] != c { assert t[i] == b[i + 1]; }
    }
  }

  /** Nothing is lost, and nothing written over behind the batch, exactly when no group but the last one at every level
      meets a leaf that the batch does not write. */
  lemma {:induction false} StepUndisturbed(m: Map, b: seq<KV>, d: nat, last: bool)
    requires Ready(m, b, d)
    ensures Undisturbed(m, b, d, last) <==> Lost(m, b, d) == {} && (last || Step(m, b, d).behind == None)
    decreases KEY_SIZE - d, 1, 0
  {
    if b == [] || d == KEY_SIZE || |m| == 0 {
      StepExact(m, b, d);
      assert |m| == 0 ==> m == map[];
    } else if |m| == 1 {
      LeafUndisturbed(m, b, d, last);
    } else {
      hide ToWrites, Sorted, Agree, Groups, LostGroups, ChildrenUndisturbed;
      GroupsUndisturbed(m, b, d, last);
    }
  }

  lemma {:induction false} LeafUndisturbed(m: Map, b: seq<KV>, d: nat, last: bool)
    requires Ready(m, b, d) && b != [] && d < KEY_SIZE && |m| == 1
    ensures Undisturbed(m, b, d, last) <==> Lost(m, b, d) == {} && (last || Step(m, b, d).behind == None)
    decreases KEY_SIZE - d, 0, |b| + 3
  {
    if TheKey(m) !in ToWrites(b) {
      Absorbs(m, b, d);
    } else {
      ReadyPart(m, map[], b, d);
      NoSubs(d);
      GroupsExact(map[], b, d);
    }
    hide ToWrites, Sorted, Agree, Groups, LostGroups, Insertion, Exact, Override, ChildrenUndisturbed, Ready;
  }

  lemma {:induction false} GroupRun(b: seq<KV>, d: nat, c: Byte)
    requires d < KEY_SIZE && b != []
    ensures GroupOf(b, d, c) ==
      (if b[0].k[d] == c then b[..RunLength(b, d)] else []) + GroupOf(b[RunLength(b, d)..], d, c)
    decreases |b|
  {
    hide RunLength, GroupOf;
    var n, t := RunLength(b, d), b[1..];
    GroupNext(b, d, c);
    if n == 1 {
      assert b[..1] == [b[0]];
    } else {
      RunNext(b, d);
      GroupRun(t, d, c);
    }
  }

  lemma GroupNext(b: seq<KV>, d: nat, c: Byte)
    requires d < KEY_SIZE && b != []
    ensures GroupOf(b, d, c) == (if b[0].k[d] == c then [b[0]] else []) + GroupOf(b[1..], d, c)
  {
  }

  lemma RunNext(b: seq<KV>, d: nat)
    requires d < KEY_SIZE && b != [] && RunLength(b, d) > 1
    ensures var n, t := RunLength(b, d), b[1..];
      t != [] && RunLength(t, d) == n - 1 && t[0].k[d] == b[0].k[d] && t[n - 1..] == b[n..]
        && b[..n] == [b[0]] + t[..n - 1]
  {
  }

  /** The groups are the first run and the groups behind it. */
  lemma GroupsSplit(b: seq<KV>, d: nat)
    requires d < KEY_SIZE && b != [] && Sorted(b) && Agree(ToWrites(b).Keys, d)
    ensures GroupOf(b, d, b[0].k[d]) == b[..RunLength(b, d)]
    ensures GroupOf(b[RunLength(b, d)..], d, b[0].k[d]) == []
    ensures forall c: Byte :: c != b[0].k[d] ==> GroupOf(b, d, c) == GroupOf(b[RunLength(b, d)..], d, c)
    ensures RunLength(b, d) < |b| ==> b[|b| - 1].k[d] != b[0].k[d]
  {
    hide ToWrites, Sorted, Agree, GroupOf, RunLength;
    var n, c0 := RunLength(b, d), b[0].k[d];
    var t := b[n..];
    OtherBytes(b, d);
    GroupRun(b, d, c0);
    forall c: Byte | c != c0 ensures GroupOf(b, d, c) == GroupOf(t, d, c) {
      GroupRun(b, d, c);
    }
  }

  lemma OtherBytes(b: seq<KV>, d: nat)
    requires d < KEY_SIZE && b != [] && Sorted(b) && Agree(ToWrites(b).Keys, d)
    ensures GroupOf(b[RunLength(b, d)..], d, b[0].k[d]) == []
    ensures RunLength(b, d) < |b| ==> b[|b| - 1].k[d] != b[0].k[d]
  {
    hide ToWrites, Sorted, Agree, RunLength;
    RunSplit(b, d);
    var t := b[RunLength(b, d)..];
    forall i | 0 <= i < |t| ensures t[i].k[d] != b[0].k[d] {
      WrittenKey(t, i);
    }
    GroupEmpty(t, d, b[0].k[d]);
    if t != [] { assert t[|t| - 1] == b[|b| - 1]; }
  }

  lemma NothingUndisturbed(m: Map, b: seq<KV>, d: nat, last: bool)
    requires d <= KEY_SIZE && b == []
    ensures Undisturbed(m, b, d, last)
  {
  }

  lemma {:induction false} GroupsUndisturbed(m: Map, b: seq<KV>, d: nat, last: bool)
    requires d < KEY_SIZE && Ready(m, b, d) && b != []
    ensures ChildrenUndisturbed(m, b, d, last) <==>
      LostGroups(m, b, d) == {} && (last || Groups(m, b, d).behind == None)
    decreases KEY_SIZE - d, 0, |b|
  {
    hide ToWrites, Sorted, Agree, Step, Lost, Sub, Replace, Override, Exact, Ready, RunLength, Undisturbed, GroupOf,
      Remaining;
    var c, n := b[0].k[d], RunLength(b, d);
    var sub, g, rest := Sub(m, d, c), b[..n], b[n..];
    FirstRun(m, b, d);
    ReadyParts(m, b, d);
    GroupsSplit(b, d);
    StepExact(sub, g, d + 1);
    var r := Step(sub, g, d + 1);
    StepUndisturbed(sub, g, d + 1, last && n == |b|);
    if n == |b| {
      OneChild(m, b, d, last);
    } else {
      var m1 := Replace(m, d, c, r.after);
      FirstChild(m, m1, b, d, last, r, Lost(sub, g, d + 1));
      if r.behind == None {
        RestReady(m, b, d, r, Lost(sub, g, d + 1));
        NoneRemaining(b, n);
        GroupsUndisturbed(m1, rest, d, last);
      }
    }
  }

  lemma ReadyParts(m: Map, b: seq<KV>, d: nat)
    requires Ready(m, b, d)
    ensures Sorted(b) && Agree(m.Keys + ToWrites(b).Keys, d) && Agree(ToWrites(b).Keys, d)
  {
  }

  lemma NoneRemaining(b: seq<KV>, n: nat)
    requires n < |b|
    ensures Remaining(b, n, None) == b[n..]
  {
  }

  /** One group alone. */
  lemma OneChild(m: Map, b: seq<KV>, d: nat, last: bool)
    requires d < KEY_SIZE && b != [] && RunLength(b, d) == |b| && Sorted(b) && Agree(ToWrites(b).Keys, d)
    ensures ChildrenUndisturbed(m, b, d, last) <==> Undisturbed(Sub(m, d, b[0].k[d]), b[..|b|], d + 1, last)
  {
    GroupsSplit(b, d);
    hide Undisturbed, ToWrites, Sorted, Agree, Sub, RunLength;
    var c0 := b[0].k[d];
    assert b[|b| - 1].k[d] == c0;
    forall c: Byte | c != c0 ensures Undisturbed(Sub(m, d, c), GroupOf(b, d, c), d + 1, last && b[|b| - 1].k[d] == c) {
      NothingUndisturbed(Sub(m, d, c), GroupOf(b, d, c), d + 1, false);
    }
  }

  /** The first group, and the others. */
  lemma FirstChild(m: Map, m1: Map, b: seq<KV>, d: nat, last: bool, r: Run, lost: set<Key>)
    requires d < KEY_SIZE && Ready(m, b, d) && b != [] && Agree(ToWrites(b).Keys, d) && Sorted(b)
    requires var n := RunLength(b, d); n < |b| && Exact(Sub(m, d, b[0].k[d]), b[..n], r, lost)
    requires m1 == Replace(m, d, b[0].k[d], r.after)
    ensures ChildrenUndisturbed(m, b, d, last) <==>
      Undisturbed(Sub(m, d, b[0].k[d]), b[..RunLength(b, d)], d + 1, false) &&
      ChildrenUndisturbed(m1, b[RunLength(b, d)..], d, last)
  {
    var n, c0 := RunLength(b, d), b[0].k[d];
    GroupsSplit(b, d);
    FirstDone(m, b, d, r, lost);
    hide Undisturbed, ToWrites, Sorted, Agree, Sub, RunLength, Exact, Ready, Replace;
    var t := b[n..];
    assert t[|t| - 1] == b[|b| - 1];
    forall c: Byte ensures Sub(m1, d, c) == if c == c0 then r.after else Sub(m, d, c) {
      ReplaceSub(m, d, c0, r.after, c);
    }
    NothingUndisturbed(r.after, GroupOf(t, d, c0), d + 1, false);
    FirstAndRest(m, m1, b, t, d, last, c0, r.after);
  }

  lemma FirstAndRest(m: Map, m1: Map, b: seq<KV>, t: seq<KV>, d: nat, last: bool, c0: Byte, s: Map)
    requires d < KEY_SIZE && b != [] && t != [] && t[|t| - 1] == b[|b| - 1] && b[|b| - 1].k[d] != c0
    requires forall c: Byte :: Sub(m1, d, c) == if c == c0 then s else Sub(m, d, c)
    requires forall c: Byte :: c != c0 ==> GroupOf(b, d, c) == GroupOf(t, d, c)
    requires Undisturbed(s, GroupOf(t, d, c0), d + 1, false)
    ensures ChildrenUndisturbed(m, b, d, last) <==>
      Undisturbed(Sub(m, d, c0), GroupOf(b, d, c0), d + 1, false) && ChildrenUndisturbed(m1, t, d, last)
  {
    hide Undisturbed, Sub, GroupOf;
    forall c: Byte | c != c0
      ensures Undisturbed(Sub(m, d, c), GroupOf(b, d, c), d + 1, last && b[|b| - 1].k[d] == c) ==
              Undisturbed(Sub(m1, d, c), GroupOf(t, d, c), d + 1, last && t[|t| - 1].k[d] == c)
    {
    }
  }

  // ---------------------------------------------------------------- what the updater needs

  /** A group's child stays as the group leaves it, even when its greatest entry is handled once more. */
  lemma GroupKept(m: Map, b: seq<KV>, d: nat)
    requires d < KEY_SIZE && Ready(m, b, d) && b != []
    ensures Sub(Groups(m, b, d).after, d, b[0].k[d]) == Step(Sub(m, d, b[0].k[d]), b[..RunLength(b, d)], d + 1).after
    ensures forall k :: k in Groups(m, b, d).after ==> k in m.Keys + ToWrites(b).Keys
  {
    hide ToWrites, Sorted, Agree, Step, Lost, Sub, Replace, Override, RunLength, Remaining, Groups, LostGroups;
    var c, n := b[0].k[d], RunLength(b, d);
    FirstRun(m, b, d);
    ReadyParts(m, b, d);
    StepExact(Sub(m, d, c), b[..n], d + 1);
    var r, lost := Step(Sub(m, d, c), b[..n], d + 1), Lost(Sub(m, d, c), b[..n], d + 1);
    FirstDone(m, b, d, r, lost);
    ReplaceSub(m, d, c, r.after, c);
    GroupsUnfold(m, b, d);
    if n < |b| {
      var m1, rest := Replace(m, d, c, r.after), Remaining(b, n, r.behind);
      RestReady(m, b, d, r, lost);
      GroupsExact(m1, rest, d);
      RestKeeps(m, b, d, r, lost, Groups(m1, rest, d), LostGroups(m1, rest, d));
    }
    GroupsExact(m, b, d);
    OverrideKeys(m, ToWrites(b) - LostGroups(m, b, d));
  }

  lemma OverrideKeys(m: Map, w: Writes)
    ensures Override(m, w).Keys <= m.Keys + w.Keys
  {
  }

  lemma GroupsUnfold(m: Map, b: seq<KV>, d: nat)
    requires d < KEY_SIZE && b != []
    ensures var n, r := RunLength(b, d), Step(Sub(m, d, b[0].k[d]), b[..RunLength(b, d)], d + 1);
      var m1 := Replace(m, d, b[0].k[d], r.after);
      Groups(m, b, d) == if n == |b| then Run(m1, r.behind) else Groups(m1, Remaining(b, n, r.behind), d)
  {
  }

  lemma RestKeeps(m: Map, b: seq<KV>, d: nat, r: Run, lost: set<Key>, s: Run, lost': set<Key>)
    requires d < KEY_SIZE && Ready(m, b, d) && b != [] && Agree(ToWrites(b).Keys, d)
    requires var n := RunLength(b, d); n < |b| && Exact(Sub(m, d, b[0].k[d]), b[..n], r, lost)
    requires var n := RunLength(b, d); Exact(Replace(m, d, b[0].k[d], r.after), Remaining(b, n, r.behind), s, lost')
    ensures Sub(s.after, d, b[0].k[d]) == r.after
  {
    hide ToWrites, Sorted, Agree, RunLength, Ready, Sub, Replace, Override, Redundant;
    ReadyParts(m, b, d);
    var n, c := RunLength(b, d), b[0].k[d];
    RestWrites(m, b, d, r, lost);
    RunSplit(b, d);
    BehindRun(b, d);
    FirstDone(m, b, d, r, lost);
    var m1, w := Replace(m, d, c, r.after), ToWrites(Remaining(b, n, r.behind)) - lost';
    OverrideSub(m1, w, d, c);
    ReplaceSub(m, d, c, r.after, c);
    if r.behind.Some? {
      SubOfFirst(r.behind.value, ToWrites(b[n + 1..]), lost', d, c);
      RedundantAlone(r.after, r.behind.value);
    } else {
      SubElsewhere(ToWrites(b[n..]), lost', d, c);
      OverrideAlgebra(r.after, map[], map[]);
    }
  }

  lemma SubOfFirst(x: KV, t: Writes, l: set<Key>, d: nat, c: Byte)
    requires d < KEY_SIZE && x.k[d] == c && x.k !in l && x.k !in t && forall k :: k in t ==> k[d] != c
    ensures Sub((map[x.k := x.v] + t) - l, d, c) == map[x.k := x.v]
  {
  }

  lemma SubElsewhere(t: Writes, l: set<Key>, d: nat, c: Byte)
    requires d < KEY_SIZE && forall k :: k in t ==> k[d] != c
    ensures Sub(t - l, d, c) == map[]
  {
  }

  lemma RedundantAlone(m: Map, e: KV)
    requires Redundant(m, e)
    ensures Override(m, map[e.k := e.v]) == m
  {
  }

  // ---------------------------------------------------------------- committing

  /** The sorted batch of a map of writes. */
  ghost function SortedWrites(w: Writes): (b: seq<KV>)
    ensures Sorted(b) && ToWrites(b) == w
    decreases |w|
  {
    if w == map[] then [] else
      var k :| k in w;
      assert |w - {k}| < |w| by { assert (w - {k}).Keys == w.Keys - {k}; }
      InsertionSorted(SortedWrites(w - {k}), KV(k, w[k]));
      Insertion(SortedWrites(w - {k}), KV(k, w[k]))
  }

  /** There is one. */
  lemma {:induction false} SortedUnique(a: seq<KV>, b: seq<KV>)
    requires Sorted(a) && Sorted(b) && ToWrites(a) == ToWrites(b)
    ensures a == b
    decreases |a|
  {
    if a == [] || b == [] {
      if a != [] { WrittenKey(a, 0); }
      if b != [] { WrittenKey(b, 0); }
    } else {
      LastIsGreatest(a);
      LastIsGreatest(b);
      var x, y := a[|a| - 1], b[|b| - 1];
      if x.k != y.k {
        NotLess(x.k, y.k);
      }
      assert ToWrites(a[..|a| - 1]) == ToWrites(a) - {x.k};
      assert ToWrites(b[..|b| - 1]) == ToWrites(b) - {y.k};
      SortedUnique(a[..|a| - 1], b[..|b| - 1]);
      assert a == a[..|a| - 1] + [x] && b == b[..|b| - 1] + [y];
    }
  }

  lemma LastIsGreatest(b: seq<KV>)
    requires Sorted(b) && b != []
    ensures forall k :: k in ToWrites(b) && k != b[|b| - 1].k ==> Less(k, b[|b| - 1].k)
    ensures b[|b| - 1].k in ToWrites(b) && b[|b| - 1].k !in ToWrites(b[..|b| - 1])
  {
    forall k | k in ToWrites(b) && k != b[|b| - 1].k ensures Less(k, b[|b| - 1].k) {
      WritesKeys(b, k);
    }
    SortedDistinct(b);
  }

  /** The map that committing the writes w to the map m ends in. */
  ghost function Committed(m: Map, w: Writes): Map {
    Step(m, SortedWrites(w), 0).after
  }

  /** The keys whose writes `Commit` loses. */
  ghost function LostKeys(m: Map, w: Writes): set<Key> {
    Lost(m, SortedWrites(w), 0)
  }

  /** What is lost would have changed nothing. */
  ghost predicate LossHarmless(m: Map, w: Writes) {
    forall k :: k in LostKeys(m, w) && k in w ==> Redundant(m, KV(k, w[k]))
  }

  lemma CommitReady(m: Map, w: Writes)
    ensures Ready(m, SortedWrites(w), 0)
  {
  }

  /** `Commit` does all that is pending exactly when the writes that it loses would have changed nothing. */
  lemma CommitKeeps(m: Map, w: Writes)
    ensures LostKeys(m, w) <= w.Keys && Committed(m, w) == Override(m, w - LostKeys(m, w))
    ensures Committed(m, w) == Override(m, w) <==> LossHarmless(m, w)
  {
    CommitReady(m, w);
    LostExactly(m, SortedWrites(w), 0);
    KeepsExactly(m, SortedWrites(w), 0);
  }

  /** It loses nothing exactly when every leaf that it meets, and does not write, is met by the group with the greatest
      key. */
  lemma CommitLosesNothing(m: Map, w: Writes)
    ensures LostKeys(m, w) == {} <==> Undisturbed(m, SortedWrites(w), 0, true)
    ensures LostKeys(m, w) == {} ==> LossHarmless(m, w)
  {
    CommitReady(m, w);
    StepUndisturbed(m, SortedWrites(w), 0, true);
  }

  /** One write is never lost. */
  lemma SingleKept(m: Map, e: KV)
    ensures Ready(m, [e], 0) && Step(m, [e], 0).after == Override(m, map[e.k := e.v])
  {
    SingleWrite(e);
    LostExactly(m, [e], 0);
    StepExact(m, [e], 0);
    assert Lost(m, [e], 0) == {};
    assert ToWrites([e]) - {} == ToWrites([e]);
  }
}
