/** A user's buffer of pending transactions, and what a prepare worker does with it on one arrival. */
module PrepareQueue {
  import opened Words
  import opened NonceOrder

  /** A decoded transaction: its hash, and the fields of its header. */
  datatype Tx = Tx(hash: nat, uid: U64, nonce: U64, market: U32)

  const MAX_PENDING: nat := 1024

  predicate Sorted(q: seq<Tx>) {
    forall i, j :: 0 <= i < j < |q| ==> q[i].nonce <= q[j].nonce
  }

  /** p placed behind the last entry that does not have a greater nonce. */
  function Insert(q: seq<Tx>, p: Tx): seq<Tx> {
    if q == [] || q[|q| - 1].nonce <= p.nonce then q + [p] else Insert(q[..|q| - 1], p) + [q[|q| - 1]]
  }

  lemma InsertHere(q: seq<Tx>, p: Tx)
    requires q == [] || q[|q| - 1].nonce <= p.nonce
    ensures Insert(q, p) == q + [p]
  {
  }

  lemma InsertBefore(q: seq<Tx>, p: Tx, i: nat)
    requires 0 < i <= |q| && q[i - 1].nonce > p.nonce
    ensures Insert(q[..i], p) + q[i..] == Insert(q[..i - 1], p) + q[i - 1..]
  {
    assert q[..i][..i - 1] == q[..i - 1];
  }

  lemma ShiftRight(q: seq<Tx>, slot: Tx, i: nat)
    requires 0 < i <= |q|
    ensures (q[..i] + [slot] + q[i..])[i := q[i - 1]] == q[..i - 1] + [q[i - 1]] + q[i - 1..]
  {
  }

  /** Where it is placed; everything else stays in order around it. */
  lemma {:induction false} InsertPlace(q: seq<Tx>, p: Tx) returns (k: nat)
    ensures k <= |q| && Insert(q, p) == q[..k] + [p] + q[k..]
    ensures forall i :: k <= i < |q| ==> q[i].nonce > p.nonce
    ensures k > 0 ==> q[k - 1].nonce <= p.nonce
  {
    if q == [] || q[|q| - 1].nonce <= p.nonce {
      k := |q|;
    } else {
      k := InsertPlace(q[..|q| - 1], p);
      assert q[..|q| - 1][..k] == q[..k] && q[..|q| - 1][k..] + [q[|q| - 1]] == q[k..];
    }
  }

  /** Insertion keeps a buffer sorted. */
  lemma InsertSorts(q: seq<Tx>, p: Tx)
    requires Sorted(q)
    ensures Sorted(Insert(q, p))
  {
    var k := InsertPlace(q, p);
    var r := Insert(q, p);
    hide Insert;
    forall i, j | 0 <= i < j < |r| ensures r[i].nonce <= r[j].nonce {
      assert r[i] == if i < k then q[i] else if i == k then p else q[i - 1];
      assert r[j] == if j < k then q[j] else if j == k then p else q[j - 1];
      if i < k { assert q[i].nonce <= q[k - 1].nonce; }
    }
  }

  /** It adds just the new entry. */
  lemma InsertAdds(q: seq<Tx>, p: Tx)
    ensures multiset(Insert(q, p)) == multiset(q) + multiset{p}
  {
    var k := InsertPlace(q, p);
    assert q == q[..k] + q[k..];
  }

  /** How many entries the worker dispatches: it stops at the first one below the expected nonce, which is the nonce
      dispatched last. */
  function Drained(q: seq<Tx>, expected: U64): (n: nat)
    ensures n <= |q|
  {
    if q == [] || q[0].nonce < expected then 0 else 1 + Drained(q[1..], q[0].nonce)
  }

  /** It is the longest prefix in which no nonce is below the one before it, the first being compared with the expected
      nonce. */
  lemma {:induction false} DrainsWhile(q: seq<Tx>, expected: U64)
    ensures var n := Drained(q, expected);
      (forall i :: 0 <= i < n ==> q[i].nonce >= if i == 0 then expected else q[i - 1].nonce) &&
      (n < |q| ==> q[n].nonce < if n == 0 then expected else q[n - 1].nonce)
  {
    if q != [] && q[0].nonce >= expected {
      var rest, n := q[1..], Drained(q[1..], q[0].nonce);
      DrainsWhile(rest, q[0].nonce);
      forall i | 0 <= i < n + 1 ensures q[i].nonce >= if i == 0 then expected else q[i - 1].nonce {
        if i > 0 { assert rest[i - 1] == q[i] && (i > 1 ==> rest[i - 2] == q[i - 1]); }
      }
    }
  }

  /** A sorted buffer without stale entries is dispatched whole. */
  lemma {:induction false} DrainsAll(q: seq<Tx>, expected: U64)
    requires Sorted(q) && (q != [] ==> q[0].nonce >= expected)
    ensures Drained(q, expected) == |q|
  {
    if q != [] { DrainsAll(q[1..], q[0].nonce); }
  }

  /** What an arrival does to a user's buffer and nonce, and what is sent on. */
  datatype Outcome = Outcome(queue: seq<Tx>, nonce: U64, sent: seq<Tx>)

  function Arrive(queue: seq<Tx>, nonce: U64, tx: Tx): Outcome {
    if tx.nonce < Expected(nonce) || |queue| >= MAX_PENDING then Outcome(queue, nonce, [])
    else
      var q := Insert(queue, tx);
      var n := Drained(q, Expected(nonce));
      Outcome(q[n..], if n > 0 then q[n - 1].nonce else nonce, q[..n])
  }

  /** Any buffer: a nonce that is stored or passed, and any transaction when 1024 are waiting, change nothing.  Otherwise
      the transaction is among those sent and those waiting, and the last nonce sent is stored. */
  lemma ArriveLaw(queue: seq<Tx>, nonce: U64, tx: Tx)
    ensures var r := Arrive(queue, nonce, tx);
      if tx.nonce <= nonce < U64_MAX || |queue| >= 1024 then r == Outcome(queue, nonce, [])
      else
        multiset(r.sent + r.queue) == multiset(queue) + multiset{tx} &&
        r.nonce == (if r.sent == [] then nonce else r.sent[|r.sent| - 1].nonce) &&
        (Sorted(queue) ==> Sorted(r.sent + r.queue))
  {
    hide Sorted, Insert, Drained;
    var q := Insert(queue, tx);
    var n := Drained(q, Expected(nonce));
    InsertAdds(queue, tx);
    assert q[..n] + q[n..] == q;
    if Sorted(queue) { InsertSorts(queue, tx); }
  }

  /** The buffer never holds anything between arrivals: an arrival is dispatched at once or not at all, as NonceOrder
      has it. */
  lemma ArriveEmpty(nonce: U64, tx: Tx)
    ensures Arrive([], nonce, tx) ==
      if tx.nonce >= Expected(nonce) then Outcome([], tx.nonce, [tx]) else Outcome([], nonce, [])
  {
    assert Insert([], tx) == [tx];
    assert Drained([tx], Expected(nonce)) == if tx.nonce >= Expected(nonce) then 1 else 0;
  }

  // ---------------------------------------------------------------- the buffer object

  class UserBuffer {
    var Queue: seq<Tx>

    constructor ()
      ensures Queue == []
    {
      Queue := [];
    }

    /** Insertion sort of one entry. */
    method Add(ptx: Tx)
      modifies this
      ensures Queue == Insert(old(Queue), ptx)
    {
      if |Queue| == 0 || ptx.nonce > Queue[|Queue| - 1].nonce {
        Queue := Queue + [ptx];
        return;
      }
      hide Insert;
      ghost var was, slot := Queue, ptx;
      Queue := Queue + [ptx];
      var i: nat := |Queue| - 1;
      assert was[..i] == was;
      while i > 0 && Queue[i - 1].nonce > ptx.nonce
        invariant i <= |was| && Queue == was[..i] + [slot] + was[i..]
        invariant Insert(was, ptx) == Insert(was[..i], ptx) + was[i..]
      {
        ShiftRight(was, slot, i);
        InsertBefore(was, ptx, i);
        slot := was[i - 1];
        Queue := Queue[i := Queue[i - 1]];
        i := i - 1;
      }
      InsertHere(was[..i], ptx);
      Queue := Queue[i := ptx];
    }

    /** Drops the first n entries, which have been dispatched. */
    method Shift(n: nat)
      requires n <= |Queue|
      modifies this
      ensures Queue == old(Queue)[n..]
    {
      if n > 0 {
        if |Queue| - n == 0 {
          Queue := [];
        } else {
          Queue := Queue[n..];
        }
      }
    }
  }
}
