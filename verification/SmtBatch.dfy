/** Sorted batches of writes, as `Commit` builds them and the updater slices them. */
module SmtBatch {
  import opened Words
  import opened SmtNodes
  import opened SmtModel

  datatype KV = KV(k: Key, v: Option<Value>)

  ghost predicate Sorted(b: seq<KV>) {
    forall i, j :: 0 <= i < j < |b| ==> Less(b[i].k, b[j].k)
  }

  /** The writes that a batch stands for. */
  function ToWrites(b: seq<KV>): Writes {
    if b == [] then map[] else ToWrites(b[..|b| - 1])[b[|b| - 1].k := b[|b| - 1].v]
  }

  ghost predicate Distinct(b: seq<KV>) {
    forall i :: 0 <= i < |b| ==> b[i].k !in ToWrites(b[..i])
  }

  lemma {:induction false} WritesAppend(a: seq<KV>, b: seq<KV>)
    ensures ToWrites(a + b) == ToWrites(a) + ToWrites(b)
  {
    if b == [] {
      assert a + b == a;
    } else {
      var init, n := b[..|b| - 1], |a + b| - 1;
      assert (a + b)[..n] == a + init;
      WritesAppend(a, init);
    }
  }

  lemma {:induction false} NotWritten(b: seq<KV>, k: Key)
    requires forall i :: 0 <= i < |b| ==> b[i].k != k
    ensures k !in ToWrites(b)
  {
    if b != [] { NotWritten(b[..|b| - 1], k); }
  }

  lemma SortedDistinct(b: seq<KV>)
    requires Sorted(b)
    ensures Distinct(b)
  {
    forall i | 0 <= i < |b| ensures b[i].k !in ToWrites(b[..i]) {
      forall j | 0 <= j < i ensures b[j].k != b[i].k {
        LessIrreflexive(b[i].k);
      }
      NotWritten(b[..i], b[i].k);
    }
  }

  lemma SliceSorted(b: seq<KV>, lo: nat, hi: nat)
    requires Sorted(b) && lo <= hi <= |b|
    ensures Sorted(b[lo..hi])
  {
  }

  /** e placed behind the last entry that does not have a greater key. */
  function Insertion(b: seq<KV>, e: KV): (r: seq<KV>)
    ensures |r| == |b| + 1
  {
    if b == [] || !Less(e.k, b[|b| - 1].k) then b + [e] else Insertion(b[..|b| - 1], e) + [b[|b| - 1]]
  }

  /** The batch in key order. */
  function InOrder(b: seq<KV>): (r: seq<KV>)
    ensures |r| == |b|
  {
    if b == [] then [] else Insertion(InOrder(b[..|b| - 1]), b[|b| - 1])
  }

  lemma {:induction false} InsertionPlace(b: seq<KV>, e: KV) returns (at: nat)
    ensures at <= |b| && Insertion(b, e) == b[..at] + [e] + b[at..]
    ensures forall i :: at <= i < |b| ==> Less(e.k, b[i].k)
    ensures at > 0 ==> !Less(e.k, b[at - 1].k)
  {
    if b == [] || !Less(e.k, b[|b| - 1].k) {
      at := |b|;
    } else {
      var init := b[..|b| - 1];
      at := InsertionPlace(init, e);
      assert init[..at] == b[..at] && init[at..] + [b[|b| - 1]] == b[at..];
    }
  }

  /** Insertion keeps a sorted batch sorted and adds just the new write. */
  lemma InsertionSorted(b: seq<KV>, e: KV)
    requires Sorted(b) && e.k !in ToWrites(b)
    ensures Sorted(Insertion(b, e)) && ToWrites(Insertion(b, e)) == ToWrites(b)[e.k := e.v]
  {
    hide Insertion, Less;
    var at := InsertionPlace(b, e);
    var lo, hi := b[..at], b[at..];
    assert b == lo + hi;
    InsertedWrites(lo, e, hi);
    if at > 0 { LastNotInserted(lo, e, hi); }
    InsertedSorted(b, e, at);
  }

  /** Sorting a batch of distinct keys gives a sorted batch that stands for the same writes. */
  lemma {:induction false} InOrderSorts(b: seq<KV>)
    requires Distinct(b)
    ensures Sorted(InOrder(b)) && ToWrites(InOrder(b)) == ToWrites(b)
  {
    if b != [] {
      var init := b[..|b| - 1];
      forall i | 0 <= i < |init| ensures init[i].k !in ToWrites(init[..i]) {
        assert init[..i] == b[..i];
      }
      InOrderSorts(init);
      InsertionSorted(InOrder(init), b[|b| - 1]);
    }
  }

  /** A sorted batch is in order already. */
  lemma {:induction false} InOrderSorted(b: seq<KV>)
    requires Sorted(b)
    ensures InOrder(b) == b
  {
    hide Insertion, Less;
    if b != [] {
      var init, n := b[..|b| - 1], |b| - 1;
      InOrderSorted(init);
      if n > 0 { NotLess(b[n].k, b[n - 1].k); }
      InsertionHere(init, b[n]);
    }
  }

  lemma NotLess(y: Key, x: Key)
    requires Less(x, y)
    ensures !Less(y, x)
  {
    LessIrreflexive(x);
    if Less(y, x) { LessTransitive(x, y, x); }
  }

  /** `sort.Slice` with the key order: insertion sort of a section of the array, in place. */
  method SortSlice(a: array<KV>, lo: nat, hi: nat)
    requires lo <= hi <= a.Length
    modifies a
    ensures a[..] == old(a[..lo]) + InOrder(old(a[lo..hi])) + old(a[hi..])
  {
    hide InOrder;
    ghost var was, pre, post := a[lo..hi], a[..lo], a[hi..];
    assert InOrder([]) == [] by { InOrderSorted([]); }
    for n := 0 to hi - lo
      invariant a[..] == pre + InOrder(was[..n]) + (was[n..] + post)
    {
      Split(a[..], pre, InOrder(was[..n]), was[n], was[n + 1..] + post);
      InOrderNext(was, n);
      SinkLast(a, lo, lo + n);
    }
    assert was[..hi - lo] == was;
  }

  lemma Split(all: seq<KV>, pre: seq<KV>, b: seq<KV>, e: KV, post: seq<KV>)
    requires all == pre + b + ([e] + post)
    ensures all[..|pre|] == pre && all[|pre|..|pre| + |b|] == b && all[|pre| + |b|] == e
    ensures all[|pre| + |b| + 1..] == post
  {
  }

  lemma InOrderNext(was: seq<KV>, n: nat)
    requires n < |was|
    ensures InOrder(was[..n + 1]) == Insertion(InOrder(was[..n]), was[n])
    ensures was[n..] == [was[n]] + was[n + 1..]
  {
    assert was[..n + 1][..n] == was[..n];
  }

  /** The entry at `last` sinks to its place in the section before it. */
  method SinkLast(a: array<KV>, lo: nat, last: nat)
    requires lo <= last < a.Length
    modifies a
    ensures a[..] == old(a[..lo]) + Insertion(old(a[lo..last]), old(a[last])) + old(a[last + 1..])
  {
    hide Insertion, Less;
    ghost var pre, b, e, post := a[..lo], a[lo..last], a[last], a[last + 1..];
    var at := last;
    assert b[..|b|] == b && b[|b|..] == [];
    while at > lo && Less(a[at].k, a[at - 1].k)
      invariant lo <= at <= last && a[..] == pre + (b[..at - lo] + [e] + b[at - lo..]) + post
      invariant Insertion(b, e) == Insertion(b[..at - lo], e) + b[at - lo..]
    {
      SwapDown(pre, b, e, at - lo, post);
      InsertionBefore(b, e, at - lo);
      a[at], a[at - 1] := a[at - 1], a[at];
      at := at - 1;
    }
    if at > lo { SwapDown(pre, b, e, at - lo, post); }
    assert a[at] == (pre + (b[..at - lo] + [e] + b[at - lo..]) + post)[at] == e;
    InsertionHere(b[..at - lo], e);
  }

  lemma SwapDown(pre: seq<KV>, b: seq<KV>, e: KV, i: nat, post: seq<KV>)
    requires 0 < i <= |b|
    ensures var all, at := pre + (b[..i] + [e] + b[i..]) + post, |pre| + i;
      all[at] == e && all[at - 1] == b[i - 1] == b[..i][i - 1] &&
      all[at := b[i - 1]][at - 1 := e] == pre + (b[..i - 1] + [e] + b[i - 1..]) + post
  {
  }

  lemma InsertionHere(b: seq<KV>, e: KV)
    requires b == [] || !Less(e.k, b[|b| - 1].k)
    ensures Insertion(b, e) == b + [e]
  {
  }

  lemma InsertionBefore(b: seq<KV>, e: KV, i: nat)
    requires 0 < i <= |b| && Less(e.k, b[i - 1].k)
    ensures Insertion(b[..i], e) + b[i..] == Insertion(b[..i - 1], e) + b[i - 1..]
  {
    assert b[..i][..i - 1] == b[..i - 1];
  }

  lemma LastNotInserted(lo: seq<KV>, e: KV, hi: seq<KV>)
    requires lo != [] && e.k !in ToWrites(lo + hi)
    ensures lo[|lo| - 1].k != e.k
  {
    WritesAppend(lo, hi);
  }

  lemma InsertedSorted(b: seq<KV>, e: KV, at: nat)
    requires Sorted(b) && at <= |b|
    requires forall i :: at <= i < |b| ==> Less(e.k, b[i].k)
    requires at > 0 ==> !Less(e.k, b[at - 1].k) && e.k != b[at - 1].k
    ensures Sorted(b[..at] + [e] + b[at..])
  {
    if at > 0 {
      var last := b[at - 1];
      LessTotal(e.k, last.k);
      forall i | 0 <= i < at ensures Less(b[i].k, e.k) {
        if i < at - 1 { LessTransitive(b[i].k, last.k, e.k); }
      }
    }
  }

  lemma InsertedWrites(lo: seq<KV>, e: KV, hi: seq<KV>)
    requires e.k !in ToWrites(lo + hi)
    ensures ToWrites(lo + [e] + hi) == ToWrites(lo + hi)[e.k := e.v]
  {
    WritesAppend(lo, hi);
    WritesAppend(lo, [e]);
    WritesAppend(lo + [e], hi);
    assert ToWrites([e]) == map[e.k := e.v];
  }

  lemma {:induction false} WrittenKey(b: seq<KV>, i: nat)
    requires i < |b|
    ensures b[i].k in ToWrites(b)
  {
    if i < |b| - 1 { WrittenKey(b[..|b| - 1], i); }
  }

  ghost predicate Grouped(b: seq<KV>, d: nat)
    requires d < KEY_SIZE
  {
    forall i, j :: 0 <= i < j < |b| ==> b[i].k[d] <= b[j].k[d]
  }

  /** Sorted keys with a common prefix have non-decreasing next bytes. */
  lemma BytesSorted(b: seq<KV>, d: nat)
    requires Sorted(b) && d < KEY_SIZE && Agree(ToWrites(b).Keys, d)
    ensures Grouped(b, d)
  {
    forall i, j | 0 <= i < j < |b| ensures b[i].k[d] <= b[j].k[d] {
      WrittenKey(b, i);
      WrittenKey(b, j);
      LessByte(b[i].k, b[j].k, d);
    }
  }

  lemma SingleWrite(e: KV)
    ensures ToWrites([e]) == map[e.k := e.v]
  {
    assert [e][..0] == [];
  }

  /** At full depth the batch has one entry, and it decides everything. */
  lemma OnlyKeyAtBottom(m: Map, b: seq<KV>)
    requires b != [] && Agree(m.Keys + ToWrites(b).Keys, KEY_SIZE)
    ensures var e := b[|b| - 1];
            Override(m, ToWrites(b)) == if e.v.None? then map[] else map[e.k := e.v.value]
  {
    var e, w := b[|b| - 1], ToWrites(b);
    assert e.k in w && w[e.k] == e.v;
    forall k | k in m.Keys + w.Keys ensures k == e.k {
      assert k[..KEY_SIZE] == k && e.k[..KEY_SIZE] == e.k;
    }
  }

  lemma NothingWritten(m: Map, b: seq<KV>)
    requires b == []
    ensures Override(m, ToWrites(b)) == m
  {
  }

  lemma DistinctAppend(b: seq<KV>, e: KV)
    requires Distinct(b) && e.k !in ToWrites(b)
    ensures Distinct(b + [e]) && ToWrites(b + [e]) == ToWrites(b)[e.k := e.v]
  {
    var all := b + [e];
    assert all[..|b|] == b;
    forall i | 0 <= i < |all| ensures all[i].k !in ToWrites(all[..i]) {
      if i < |b| { assert all[..i] == b[..i]; }
    }
  }

  lemma LeafJoins(w: Writes, e: KV)
    requires e.v.Some?
    ensures Override(map[], if e.k in w then w else w[e.k := e.v]) == Override(map[e.k := e.v.value], w)
  {
  }
}
