/** What matching means, on values: a taker consumes a priority queue from its front.

    The book's side is a table of price levels, each of 16 slots, each a FIFO queue of
    orders.  Read out by best price, then slot, then arrival, it is one queue, and every
    matching run is `FillQueue` of that queue.
 */
module MatchSpec {
  import opened Words

  const WIDTH: nat := 16

  datatype Side = BUY | SELL

  function Other(side: Side): Side {
    if side == BUY then SELL else BUY
  }

  /** The fields of an order object at one moment. */
  datatype OrderV = OrderV(id: U64, trader: U32, price: U64, size: U64, filled: nat, side: Side, slot: nat,
    partial: bool) {
    function Remaining(): nat {
      if filled >= size then 0 else size - filled
    }
  }

  type Queue = seq<OrderV>
  type LevelV = s: seq<Queue> | |s| == 16 witness [[], [], [], [], [], [], [], [], [], [], [], [], [], [], [], []]
  type SideV = map<U64, LevelV>

  /** One execution against a resting order. */
  datatype Fill = Fill(makerId: U64, makerTrader: U32, price: U64, size: nat, takerPartial: bool, makerPartial: bool)

  datatype Outcome = Outcome(fills: seq<Fill>, rest: Queue)

  ghost predicate Live(q: Queue) {
    forall i :: 0 <= i < |q| ==> q[i].Remaining() > 0
  }

  function Sum(q: Queue): nat {
    if q == [] then 0 else q[0].Remaining() + Sum(q[1..])
  }

  function Min(a: nat, b: nat): nat {
    if a <= b then a else b
  }

  function FillHead(o: OrderV, need: nat): (f: Fill)
    requires need > 0
  {
    var take := Min(need, o.Remaining());
    Fill(o.id, o.trader, o.price, take, take < need, take < o.Remaining())
  }

  /** The resting order after a partial execution. */
  function Reduced(o: OrderV, take: nat): OrderV
    requires take < o.Remaining()
  {
    o.(filled := o.filled + take, partial := true)
  }

  /** Consume the queue from the front until the need or the queue is used up. */
  function FillQueue(q: Queue, need: nat): Outcome {
    if need == 0 || q == [] then Outcome([], q)
    else if need < q[0].Remaining() then Outcome([FillHead(q[0], need)], [Reduced(q[0], need)] + q[1..])
    else
      var tail := FillQueue(q[1..], need - q[0].Remaining());
      Outcome([FillHead(q[0], need)] + tail.fills, tail.rest)
  }

  function Amount(fills: seq<Fill>): nat {
    if fills == [] then 0 else fills[0].size + Amount(fills[1..])
  }

  // ---------------------------------------------------------------- laws of the queue

  lemma {:induction false} SumAppend(a: Queue, b: Queue)
    ensures Sum(a + b) == Sum(a) + Sum(b)
  {
    if a == [] {
      assert a + b == b;
    } else {
      assert (a + b)[1..] == a[1..] + b;
      SumAppend(a[1..], b);
    }
  }

  /** One order with less remaining, and none with more, lowers the sum. */
  lemma {:induction false} SumDrops(a: Queue, b: Queue, i: nat)
    requires |a| == |b| && i < |a| && forall j :: 0 <= j < |a| ==> b[j].Remaining() <= a[j].Remaining()
    ensures Sum(b) <= Sum(a) && (b[i].Remaining() < a[i].Remaining() ==> Sum(b) < Sum(a))
  {
    if |a| > 1 {
      SumDrops(a[1..], b[1..], if i > 0 then i - 1 else 0);
    }
  }

  /** The traded total is the smaller of the need and the supply, and leaves the queue. */
  lemma {:induction false} FillAmount(q: Queue, need: nat)
    ensures Amount(FillQueue(q, need).fills) == Min(need, Sum(q))
    ensures Sum(FillQueue(q, need).rest) == Sum(q) - Min(need, Sum(q))
  {
    if need == 0 || q == [] {
    } else if need < q[0].Remaining() {
      assert FillQueue(q, need).rest[1..] == q[1..];
      assert FillQueue(q, need).fills[1..] == [];
    } else {
      FillAmount(q[1..], need - q[0].Remaining());
      assert FillQueue(q, need).fills[1..] == FillQueue(q[1..], need - q[0].Remaining()).fills;
    }
  }

  /** A filled need leaves live orders live; an unfilled need leaves nothing. */
  lemma {:induction false} FillRest(q: Queue, need: nat)
    requires Live(q)
    ensures Live(FillQueue(q, need).rest)
    ensures need > Sum(q) ==> FillQueue(q, need).rest == []
    ensures need >= Sum(q) ==> FillQueue(q, need).rest == []
  {
    if need == 0 || q == [] {
      if q != [] { assert q[0].Remaining() > 0; }
    } else if need >= q[0].Remaining() {
      FillRest(q[1..], need - q[0].Remaining());
    }
  }

  /** Every maker is consumed fully except possibly the last: the fills are a prefix of the
      queue, each of the maker's whole remainder but for the final one, and the rest is the suffix. */
  lemma {:induction false} FillIsPrefix(q: Queue, need: nat)
    requires Live(q)
    ensures var r, n := FillQueue(q, need), |FillQueue(q, need).fills|;
            && n <= |q|
            && (forall i :: 0 <= i < n ==> r.fills[i].makerId == q[i].id && r.fills[i].price == q[i].price)
            && (forall i :: 0 <= i < n - 1 ==>
                 r.fills[i].size == q[i].Remaining() && !r.fills[i].makerPartial && r.fills[i].takerPartial)
            && (if n > 0 && r.fills[n - 1].makerPartial
                then r.fills[n - 1].size < q[n - 1].Remaining()
                  && r.rest == [Reduced(q[n - 1], r.fills[n - 1].size)] + q[n..]
                else r.rest == q[n..])
  {
    if need != 0 && q != [] && need >= q[0].Remaining() {
      var left := need - q[0].Remaining();
      FillIsPrefix(q[1..], left);
      var r, t := FillQueue(q, need), FillQueue(q[1..], left);
      assert r.fills == [FillHead(q[0], need)] + t.fills;
      forall i | 0 < i < |r.fills| ensures r.fills[i] == t.fills[i - 1] && q[i] == q[1..][i - 1] {}
    }
  }

  /** Consuming a concatenation: first the front, then the back with what is still needed. */
  lemma {:induction false} FillAppend(a: Queue, b: Queue, need: nat)
    ensures var left := need - Min(need, Sum(a));
            && FillQueue(a + b, need).fills == FillQueue(a, need).fills + FillQueue(b, left).fills
            && FillQueue(a + b, need).rest == FillQueue(a, need).rest + FillQueue(b, left).rest
  {
    if a == [] {
      assert a + b == b;
    } else if need > 0 {
      var o := a[0];
      assert (a + b)[0] == o && (a + b)[1..] == a[1..] + b;
      if need >= o.Remaining() {
        var head, tail := [FillHead(o, need)], FillQueue(a[1..], need - o.Remaining());
        FillAppend(a[1..], b, need - o.Remaining());
        var back := FillQueue(b, need - Min(need, Sum(a)));
        assert head + (tail.fills + back.fills) == (head + tail.fills) + back.fills;
      } else {
        assert FillQueue(a, need).rest + b == [Reduced(o, need)] + (a[1..] + b);
      }
    }
  }

  /** Resuming: after consuming a and part of the need, the rest of the run is the run on what is left. */
  lemma FillResume(a: Queue, b: Queue, need: nat)
    requires Live(a)
    ensures var left, r := need - Min(need, Sum(a)), FillQueue(a, need);
            && FillQueue(a + b, need).fills == r.fills + FillQueue(r.rest + b, left).fills
            && FillQueue(a + b, need).rest == FillQueue(r.rest + b, left).rest
  {
    FillAppend(a, b, need);
    FillRest(a, need);
    if need > Sum(a) {
      assert FillQueue(a, need).rest + b == b;
    }
  }

  // ---------------------------------------------------------------- levels and sides

  /** Slots 0 to n, in order. */
  function FlatTo(lv: seq<Queue>): Queue {
    if lv == [] then [] else FlatTo(lv[..|lv| - 1]) + lv[|lv| - 1]
  }

  function Flat(lv: LevelV): Queue {
    FlatTo(lv)
  }

  lemma {:induction false} FlatSplit(a: seq<Queue>, b: seq<Queue>)
    ensures FlatTo(a + b) == FlatTo(a) + FlatTo(b)
  {
    if b == [] {
      assert a + b == a;
    } else {
      assert (a + b)[..|a + b| - 1] == a + b[..|b| - 1];
      FlatSplit(a, b[..|b| - 1]);
    }
  }

  /** May a taker limited to `limit` trade at price p on the side `book`? */
  predicate Eligible(book: Side, p: U64, limit: U64) {
    if book == SELL then p <= limit else p >= limit
  }

  /** Strictly better for the taker. */
  predicate Better(book: Side, p: U64, q: U64) {
    if book == SELL then p < q else p > q
  }

  ghost predicate IsBest(book: Side, ps: set<U64>, p: U64) {
    p in ps && forall q :: q in ps && q != p ==> Better(book, p, q)
  }

  lemma {:induction false} BestExists(book: Side, ps: set<U64>)
    requires ps != {}
    ensures exists p :: IsBest(book, ps, p)
  {
    var p :| p in ps;
    if ps == {p} {
      assert IsBest(book, ps, p);
    } else {
      BestExists(book, ps - {p});
      var b :| IsBest(book, ps - {p}, b);
      var best := if Better(book, p, b) then p else b;
      forall q | q in ps && q != best ensures Better(book, best, q) {
        if q != p { assert q in ps - {p}; }
      }
      assert IsBest(book, ps, best);
    }
  }

  ghost function Best(book: Side, ps: set<U64>): (p: U64)
    requires ps != {}
    ensures IsBest(book, ps, p)
  {
    BestExists(book, ps);
    var p :| IsBest(book, ps, p);
    p
  }

  /** The levels at the prices ps, read out best price first. */
  ghost function FlatPrices(book: Side, v: SideV, ps: set<U64>): Queue
    requires ps <= v.Keys
  {
    if ps == {} then [] else
      Flat(v[Best(book, ps)]) + FlatPrices(book, v, ps - {Best(book, ps)})
  }

  ghost function EligiblePrices(book: Side, v: SideV, limit: U64): set<U64> {
    set p | p in v && Eligible(book, p, limit)
  }

  /** The queue that a taker with this limit faces. */
  ghost function FlatSide(book: Side, v: SideV, limit: U64): Queue {
    FlatPrices(book, v, EligiblePrices(book, v, limit))
  }

  /** Levels better than p are empty: then p comes first. */
  lemma {:induction false} FlatFirst(book: Side, v: SideV, ps: set<U64>, p: U64)
    requires ps <= v.Keys && p in ps
    requires forall q :: q in ps && Better(book, q, p) ==> Flat(v[q]) == []
    ensures FlatPrices(book, v, ps) == Flat(v[p]) + FlatPrices(book, v, ps - {p})
    decreases ps
  {
    var best := Best(book, ps);
    if best != p {
      var without := ps - {best};
      FlatFirst(book, v, without, p);
      assert Flat(v[best]) == [];
      var both := ps - {p};
      assert best in both;
      assert Best(book, both) == best;
      assert both - {best} == without - {p};
    }
  }

  lemma {:induction false} FlatUnchanged(book: Side, v: SideV, v': SideV, ps: set<U64>)
    requires ps <= v.Keys && ps <= v'.Keys && forall p :: p in ps ==> v[p] == v'[p]
    ensures FlatPrices(book, v, ps) == FlatPrices(book, v', ps)
    decreases ps
  {
    if ps != {} {
      FlatUnchanged(book, v, v', ps - {Best(book, ps)});
    }
  }

  lemma {:induction false} FlatEmpty(book: Side, v: SideV, ps: set<U64>)
    requires ps <= v.Keys && forall p :: p in ps ==> Flat(v[p]) == []
    ensures FlatPrices(book, v, ps) == []
    decreases ps
  {
    if ps != {} {
      FlatEmpty(book, v, ps - {Best(book, ps)});
    }
  }

  /** One level of a matching run, as a step of the run over the whole side. */
  lemma SideStep(book: Side, v: SideV, limit: U64, p: U64, need: nat, lv': LevelV)
    requires p in v && Eligible(book, p, limit) && Live(Flat(v[p]))
    requires forall q :: q in v && Better(book, q, p) ==> Flat(v[q]) == []
    requires Flat(lv') == FillQueue(Flat(v[p]), need).rest
    ensures var r, left := FillQueue(Flat(v[p]), need), need - Min(need, Sum(Flat(v[p])));
            var before, after := FlatSide(book, v, limit), FlatSide(book, v[p := lv'], limit);
            && FillQueue(before, need).fills == r.fills + FillQueue(after, left).fills
            && FillQueue(before, need).rest == FillQueue(after, left).rest
  {
    hide FillQueue, Sum, FlatPrices, Flat, Live;
    var ps := EligiblePrices(book, v, limit);
    var others := FlatPrices(book, v, ps - {p});
    FlatFirst(book, v, ps, p);
    FillResume(Flat(v[p]), others, need);
    var v' := v[p := lv'];
    assert EligiblePrices(book, v', limit) == ps;
    FlatUnchanged(book, v, v', ps - {p});
    FlatFirst(book, v', ps, p);
  }
}
