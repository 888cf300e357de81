/** Trades, the taker and the index, on values. */
module BookSpec {
  import opened Words
  import opened MatchSpec
  import opened BookObjects

  datatype Trade = Trade(
    TradeID: U64, TakerOrderID: U64, MakerOrderID: U64, TakerTraderID: U32, MakerTraderID: U32,
    Price: U64, Size: nat, TakerSide: Side, TakerPartial: bool, MakerPartial: bool)

  /** `atomic.AddUint64(&id, 1)` */
  function NextId(id: U64): U64 {
    if id == U64_MAX then 0 else id + 1
  }

  function Advance(id: U64, n: nat): U64
    decreases n
  {
    if n == 0 then id else Advance(NextId(id), n - 1)
  }

  function TradeOf(id: U64, taker: OrderV, f: Fill): Trade {
    Trade(id, taker.id, f.makerId, taker.trader, f.makerTrader, f.price, f.size, taker.side, f.takerPartial,
      f.makerPartial)
  }

  /** One trade per fill, numbered after `id`. */
  function TradesOf(id: U64, taker: OrderV, fills: seq<Fill>): seq<Trade>
    decreases |fills|
  {
    if fills == [] then [] else [TradeOf(NextId(id), taker, fills[0])] + TradesOf(NextId(id), taker, fills[1..])
  }

  function TakerStep(taker: OrderV, f: Fill): OrderV {
    taker.(filled := taker.filled + f.size, partial := taker.partial || f.takerPartial)
  }

  function TakerAfter(taker: OrderV, fills: seq<Fill>): OrderV
    decreases |fills|
  {
    if fills == [] then taker else TakerAfter(TakerStep(taker, fills[0]), fills[1..])
  }

  /** The trades, counter and taker of a run of fills. */
  ghost predicate Traded(fills: seq<Fill>, trades: seq<Trade>, trades': seq<Trade>, id: U64, id': U64, taker: OrderV,
          taker': OrderV) {
    && trades' == trades + TradesOf(id, taker, fills)
    && id' == Advance(id, |fills|)
    && taker' == TakerAfter(taker, fills)
  }

  lemma {:induction false} TradesAppend(id: U64, taker: OrderV, a: seq<Fill>, b: seq<Fill>)
    ensures TradesOf(id, taker, a + b) == TradesOf(id, taker, a) + TradesOf(Advance(id, |a|), taker, b)
    ensures Advance(id, |a + b|) == Advance(Advance(id, |a|), |b|)
    decreases |a|
  {
    if a == [] {
      assert a + b == b;
    } else {
      assert (a + b)[1..] == a[1..] + b;
      TradesAppend(NextId(id), taker, a[1..], b);
    }
  }

  lemma {:induction false} TradesSameTaker(id: U64, t: OrderV, t': OrderV, fills: seq<Fill>)
    requires t.id == t'.id && t.trader == t'.trader && t.side == t'.side
    ensures TradesOf(id, t, fills) == TradesOf(id, t', fills)
    decreases |fills|
  {
    if fills != [] { TradesSameTaker(NextId(id), t, t', fills[1..]); }
  }

  lemma {:induction false} TakerFields(taker: OrderV, fills: seq<Fill>)
    ensures var t := TakerAfter(taker, fills);
            t == taker.(filled := taker.filled + Amount(fills), partial := t.partial)
    decreases |fills|
  {
    if fills != [] { TakerFields(TakerStep(taker, fills[0]), fills[1..]); }
  }

  lemma {:induction false} TakerAppend(taker: OrderV, a: seq<Fill>, b: seq<Fill>)
    ensures TakerAfter(taker, a + b) == TakerAfter(TakerAfter(taker, a), b)
    decreases |a|
  {
    if a == [] {
      assert a + b == b;
    } else {
      assert (a + b)[1..] == a[1..] + b;
      TakerAppend(TakerStep(taker, a[0]), a[1..], b);
    }
  }

  /** Two runs after each other are one run. */
  lemma TradedAppend(a: seq<Fill>, b: seq<Fill>, t0: seq<Trade>, t1: seq<Trade>, t2: seq<Trade>,
                     i0: U64, i1: U64, i2: U64, k0: OrderV, k1: OrderV, k2: OrderV)
    requires Traded(a, t0, t1, i0, i1, k0, k1) && Traded(b, t1, t2, i1, i2, k1, k2)
    ensures Traded(a + b, t0, t2, i0, i2, k0, k2)
  {
    TradesAppend(i0, k0, a, b);
    TakerAppend(k0, a, b);
    TakerFields(k0, a);
    TradesSameTaker(i1, k0, k1, b);
  }

  lemma TradedOne(f: Fill, trades: seq<Trade>, id: U64, taker: OrderV)
    ensures Traded([f], trades, trades + [TradeOf(NextId(id), taker, f)], id, NextId(id), taker, TakerStep(taker, f))
  {
    assert [f][1..] == [];
    assert TradesOf(id, taker, [f]) == [TradeOf(NextId(id), taker, f)];
    assert TakerAfter(TakerStep(taker, f), []) == TakerStep(taker, f);
    assert Advance(id, 1) == Advance(NextId(id), 0);
  }

  lemma TradedNothing(trades: seq<Trade>, id: U64, taker: OrderV)
    ensures Traded([], trades, trades, id, id, taker, taker)
  {
  }

  type Index = map<U64, Order>

  /** The index m' is m without the orders in `gone`. */
  ghost predicate Removed(m: Index, m': Index, gone: set<Order>) {
    && (forall id :: id in m' ==> id in m && m'[id] == m[id] && m[id] !in gone)
    && (forall id :: id in m && m[id] !in gone ==> id in m')
  }

  lemma RemovedNothing(m: Index, os: set<Order>)
    ensures Removed(m, m, os - os)
  {
  }

  lemma RemovedMaker(m: Index, os: set<Order>, maker: Order)
    requires IndexHolds(m, os) && maker in os
    ensures Removed(m, m - {maker.ID}, os - (os - {maker})) && Removed(m, m, os - os)
    ensures IndexHolds(m - {maker.ID}, os - {maker})
  {
  }

  /** Orders leave in two steps. */
  lemma RemovedAgain(m: Index, m1: Index, m2: Index, os: set<Order>, os1: set<Order>, os2: set<Order>)
    requires os2 <= os1 <= os && Removed(m, m1, os - os1) && Removed(m1, m2, os1 - os2)
    ensures Removed(m, m2, os - os2)
  {
  }

  /** Slot s, filled after the slots before it. */
  lemma SlotStep(v0: LevelV, v: LevelV, s: nat, need0: nat, need: nat)
    requires s < WIDTH && v[s..] == v0[s..]
    requires FlatTo(v[..s]) == FillQueue(FlatTo(v0[..s]), need0).rest
    requires need == need0 - Min(need0, Sum(FlatTo(v0[..s])))
    ensures var a, a', q := FlatTo(v0[..s]), FlatTo(v0[..s + 1]), v[s];
            var v' := v[s := FillQueue(q, need).rest];
            && FillQueue(a', need0).fills == FillQueue(a, need0).fills + FillQueue(q, need).fills
            && FlatTo(v'[..s + 1]) == FillQueue(a', need0).rest
            && need - Min(need, Sum(q)) == need0 - Min(need0, Sum(a'))
            && v'[s + 1..] == v0[s + 1..]
  {
    hide Sum, FillQueue;
    var a, q := FlatTo(v0[..s]), v[s];
    assert v0[s] == v0[s..][0] == q;
    FlatOne(v0, s);
    FillAppend(a, q, need0);
    SumAppend(a, q);
    var v' := v[s := FillQueue(q, need).rest];
    FlatOne(v', s);
    assert v'[..s] == v[..s];
    assert v'[s + 1..] == v[s..][1..] && v0[s + 1..] == v0[s..][1..];
  }

  lemma FlatOne(v: LevelV, s: nat)
    requires s < WIDTH
    ensures FlatTo(v[..s + 1]) == FlatTo(v[..s]) + v[s]
  {
    assert v[..s + 1][..s] == v[..s];
  }

  /** The slots that a filled taker did not reach are untouched. */
  lemma LevelEnd(v0: LevelV, v: LevelV, s: nat, need0: nat, need: nat)
    requires s <= WIDTH && v[s..] == v0[s..] && (s < WIDTH ==> need == 0)
    requires FlatTo(v[..s]) == FillQueue(FlatTo(v0[..s]), need0).rest
    requires need == need0 - Min(need0, Sum(FlatTo(v0[..s])))
    ensures FillQueue(Flat(v0), need0).fills == FillQueue(FlatTo(v0[..s]), need0).fills
    ensures Flat(v) == FillQueue(Flat(v0), need0).rest
    ensures need == need0 - Min(need0, Sum(Flat(v0)))
  {
    hide Sum, FillQueue;
    var a, b := v0[..s], v0[s..];
    assert v0 == a + b && v == v[..s] + b;
    FlatSplit(a, b);
    FlatSplit(v[..s], b);
    FillAppend(FlatTo(a), FlatTo(b), need0);
    SumAppend(FlatTo(a), FlatTo(b));
    if s == WIDTH { assert b == []; }
    FillNone(FlatTo(b), need);
    assert FillQueue(FlatTo(a), need0).fills + [] == FillQueue(FlatTo(a), need0).fills;
  }

  /** What a matching run changes besides the queues: the log, the counter, the taker, the index and who rests. */
  datatype Snap = Snap(trades: seq<Trade>, id: U64, taker: OrderV, index: Index, resting: set<Order>)

  ghost predicate Ran(fills: seq<Fill>, a: Snap, b: Snap) {
    && Traded(fills, a.trades, b.trades, a.id, b.id, a.taker, b.taker)
    && b.resting <= a.resting && Removed(a.index, b.index, a.resting - b.resting)
  }

  lemma RanNothing(a: Snap)
    ensures Ran([], a, a)
  {
    TradedNothing(a.trades, a.id, a.taker);
    RemovedNothing(a.index, a.resting);
  }

  lemma RanOne(f: Fill, a: Snap, b: Snap)
    requires b.trades == a.trades + [TradeOf(NextId(a.id), a.taker, f)] && b.id == NextId(a.id)
    requires b.taker == TakerStep(a.taker, f)
    requires b.resting <= a.resting && Removed(a.index, b.index, a.resting - b.resting)
    ensures Ran([f], a, b)
  {
    TradedOne(f, a.trades, a.id, a.taker);
  }

  lemma RanAgain(f: seq<Fill>, g: seq<Fill>, a: Snap, b: Snap, c: Snap)
    requires Ran(f, a, b) && Ran(g, b, c)
    ensures Ran(f + g, a, c)
  {
    TradedAppend(f, g, a.trades, b.trades, c.trades, a.id, b.id, c.id, a.taker, b.taker, c.taker);
    RemovedAgain(a.index, b.index, c.index, a.resting, b.resting, c.resting);
  }

  /** The orders are indexed under their own ids, and no id leads to one of them by accident. */
  ghost predicate IndexHolds(m: Index, orders: set<Order>)
    reads orders
  {
    && (forall o :: o in orders ==> o.ID in m && m[o.ID] == o)
    && (forall id :: id in m && m[id] in orders ==> m[id].ID == id)
  }

  lemma FillNone(q: Queue, need: nat)
    requires need == 0 || q == []
    ensures FillQueue(q, need) == Outcome([], q) && Min(need, Sum(q)) == 0
  {
  }

  /** Unfolding a run by one execution. */
  lemma FillOnce(q: Queue, need: nat)
    requires Live(q) && q != [] && need > 0
    ensures var take := Min(need, q[0].Remaining());
            var r, next := FillQueue(q, need), FillQueue(AfterHead(q, take), need - take);
            && r.fills == [FillHead(q[0], need)] + next.fills && r.rest == next.rest
            && need - Min(need, Sum(q)) == need - take - Min(need - take, Sum(AfterHead(q, take)))
            && need - take < need
  {
    SumAfterHead(q, Min(need, q[0].Remaining()));
  }

  lemma IndexPart(m: Index, orders: set<Order>, part: set<Order>)
    requires IndexHolds(m, orders) && part <= orders
    ensures IndexHolds(m, part)
  {
  }

  /** Orders that did not take part stay indexed. */
  lemma IndexJoin(m: Index, m': Index, others: set<Order>, gone: set<Order>, rest: set<Order>)
    requires IndexHolds(m, others) && Removed(m, m', gone) && gone !! others && IndexHolds(m', rest)
    ensures IndexHolds(m', others + rest)
  {
  }

  lemma RanWithOthers(fills: seq<Fill>, a: Snap, b: Snap, others: set<Order>)
    requires Ran(fills, a, b) && others !! a.resting
    ensures Ran(fills, a.(resting := a.resting + others), b.(resting := b.resting + others))
  {
    assert (a.resting + others) - (b.resting + others) == a.resting - b.resting;
  }

  /** The taker's progress over a run is the traded total. */
  lemma RanAmount(fills: seq<Fill>, a: Snap, b: Snap)
    requires Ran(fills, a, b)
    ensures b.taker == a.taker.(filled := a.taker.filled + Amount(fills), partial := b.taker.partial)
    ensures |b.trades| == |a.trades| + |fills|
  {
    TakerFields(a.taker, fills);
    TradesCount(a.id, a.taker, fills);
  }

  lemma {:induction false} TradesCount(id: U64, taker: OrderV, fills: seq<Fill>)
    ensures |TradesOf(id, taker, fills)| == |fills|
    decreases |fills|
  {
    if fills != [] { TradesCount(NextId(id), taker, fills[1..]); }
  }

  /** A live queue and a need trade at least once. */
  lemma SomeFill(q: Queue, need: nat)
    requires q != [] && need > 0
    ensures FillQueue(q, need).fills != []
  {
  }

  lemma RemovedTaker(m: Index, m1: Index, gone: set<Order>, taker: Order, orders: set<Order>)
    requires Removed(m, m1, gone) && IndexHolds(m1, orders) && taker !in orders
    requires forall id :: id in m && m[id] == taker ==> id == taker.ID
    requires taker.ID in m ==> m[taker.ID] == taker
    ensures Removed(m, m1 - {taker.ID}, gone + {taker}) && IndexHolds(m1 - {taker.ID}, orders)
  {
  }

  lemma RanParts(fills: seq<Fill>, a: Snap, b: Snap)
    requires Ran(fills, a, b)
    ensures Traded(fills, a.trades, b.trades, a.id, b.id, a.taker, b.taker)
    ensures b.resting <= a.resting && Removed(a.index, b.index, a.resting - b.resting)
  {
  }

  /** Levels beyond the taker's limit are as they were, and no empty level filled up. */
  ghost predicate Untouched(book: Side, v0: SideV, v: SideV, limit: U64) {
    && v.Keys == v0.Keys
    && (forall p :: p in v && !Eligible(book, p, limit) ==> v[p] == v0[p])
    && (forall p :: p in v && Flat(v0[p]) == [] ==> Flat(v[p]) == [])
  }

  /** Part way through a run over a side: what was done and what the specification still asks for make up the whole. */
  ghost predicate PartWay(book: Side, limit: U64, v0: SideV, s0: Snap, need0: nat, done: seq<Fill>, v: SideV, s: Snap,
          need: nat) {
    var whole, rest := FillQueue(FlatSide(book, v0, limit), need0), FillQueue(FlatSide(book, v, limit), need);
    && Ran(done, s0, s)
    && whole.fills == done + rest.fills && whole.rest == rest.rest
    && Untouched(book, v0, v, limit)
  }

  /** The level at p is within the limit and every better level is empty. */
  ghost predicate FirstLevel(book: Side, v: SideV, limit: U64, p: U64) {
    && p in v && Eligible(book, p, limit) && Live(Flat(v[p]))
    && forall q :: q in v && Better(book, q, p) ==> Flat(v[q]) == []
  }

  lemma PartWayStart(book: Side, limit: U64, v0: SideV, s0: Snap, need0: nat)
    ensures PartWay(book, limit, v0, s0, need0, [], v0, s0, need0)
  {
    RanNothing(s0);
  }

  lemma PartWayStep(book: Side, limit: U64, v0: SideV, s0: Snap, need0: nat, done: seq<Fill>, v: SideV, s: Snap,
          need: nat,
                    p: U64, lv: LevelV, s': Snap, need': nat)
    requires PartWay(book, limit, v0, s0, need0, done, v, s, need)
    requires FirstLevel(book, v, limit, p)
    requires Flat(lv) == FillQueue(Flat(v[p]), need).rest && Ran(FillQueue(Flat(v[p]), need).fills, s, s')
    requires need' == need - Min(need, Sum(Flat(v[p])))
    ensures PartWay(book, limit, v0, s0, need0, done + FillQueue(Flat(v[p]), need).fills, v[p := lv], s', need')
  {
    hide FillQueue, FlatSide, Ran, Flat, Sum, Live;
    var fills, after := FillQueue(Flat(v[p]), need).fills, FlatSide(book, v[p := lv], limit);
    SideStep(book, v, limit, p, need, lv);
    FillNone([], need);
    RanAgain(done, fills, s0, s, s');
    assert done + (fills + FillQueue(after, need').fills) == (done + fills) + FillQueue(after, need').fills;
  }

  lemma PartWayEnd(book: Side, limit: U64, v0: SideV, s0: Snap, need0: nat, done: seq<Fill>, v: SideV, s: Snap,
          need: nat)
    requires PartWay(book, limit, v0, s0, need0, done, v, s, need)
    requires need == 0 || FlatSide(book, v, limit) == []
    ensures var r := FillQueue(FlatSide(book, v0, limit), need0);
            Ran(r.fills, s0, s) && FlatSide(book, v, limit) == r.rest && Untouched(book, v0, v, limit)
  {
    hide FillQueue, FlatSide, Ran;
    FillNone(FlatSide(book, v, limit), need);
    assert done + [] == done;
  }

  /** A taker's run over one side: the queue it faces is consumed from the front, the rest of the side is as it was,
      and exactly the used-up makers leave the index. */
  ghost predicate Executed(book: Side, limit: U64, v0: SideV, v: SideV, a: Snap, b: Snap) {
    var r := FillQueue(FlatSide(book, v0, limit), a.taker.Remaining());
    && FlatSide(book, v, limit) == r.rest && Untouched(book, v0, v, limit)
    && Ran(r.fills, a, b)
  }

  /** Every bid with volume is below every ask with volume. */
  ghost predicate NotCrossed(bids: SideV, asks: SideV) {
    forall p, q :: p in bids && q in asks && Flat(bids[p]) != [] && Flat(asks[q]) != [] ==> p < q
  }

  /** The same, seen from one side. */
  ghost predicate Uncrossed(side: Side, own: SideV, opposite: SideV) {
    if side == BUY then NotCrossed(own, opposite) else NotCrossed(opposite, own)
  }

  /** The index has exactly the resting orders, each under its own id, and ids were handed out up to `last`. */
  ghost predicate IndexExact(m: Index, orders: set<Order>, last: U64)
    reads orders
  {
    IndexHolds(m, orders) && IndexWithin(m, orders, last)
  }

  predicate IndexWithin(m: Index, orders: set<Order>, last: U64) {
    forall id :: id in m ==> m[id] in orders && id <= last
  }

  lemma ExactParts(m: Index, a: set<Order>, b: set<Order>, last: U64)
    requires IndexExact(m, a + b, last)
    ensures IndexHolds(m, a) && IndexHolds(m, b) && IndexWithin(m, a + b, last)
    ensures forall id :: id in m ==> m[id] in a + b && m[id].ID == id
  {
  }

  /** After a run the index has exactly the orders that still rest. */
  lemma IndexMatched(m: Index, m': Index, own: set<Order>, t0: set<Order>, t1: set<Order>, gone: set<Order>, last: U64)
    requires IndexWithin(m, own + t0, last) && own !! t0 && t1 <= t0 && gone !! own + t0
    requires Removed(m, m', t0 - t1 + gone) && IndexHolds(m, own) && IndexHolds(m', t1)
    ensures IndexExact(m', own + t1, last) && Removed(m, m', t0 - t1) && m'.Keys <= m.Keys
  {
  }

  lemma IndexJoined(m: Index, orders: set<Order>, order: Order, last: U64)
    requires IndexExact(m, orders, last) && order !in orders && order.ID <= last
    requires order.ID in m ==> m[order.ID] == order
    ensures IndexExact(m[order.ID := order], orders + {order}, last)
  {
  }

  lemma IndexLater(m: Index, orders: set<Order>, last: U64)
    requires IndexExact(m, orders, last) && last < U64_MAX
    ensures IndexExact(m, orders, last + 1) && last + 1 !in m
  {
  }

  lemma IndexRemoved(m: Index, orders: set<Order>, order: Order, last: U64)
    requires IndexExact(m, orders, last) && order in orders
    ensures order.ID in m && m[order.ID] == order && order.ID <= last
    ensures IndexExact(m - {order.ID}, orders - {order}, last)
  {
  }

  /** The order that an id leads to has that id, and no other order has it. */
  lemma Indexed(m: Index, orders: set<Order>, last: U64, id: U64)
    requires IndexExact(m, orders, last) && id in m
    ensures m[id].ID == id && m[id] in orders && id <= last
    ensures forall a, b :: a in orders && b in orders && a.ID == b.ID ==> a == b
  {
  }

  lemma IndexedOrder(m: Index, orders: set<Order>, last: U64, order: Order)
    requires IndexExact(m, orders, last) && order in orders
    ensures order.ID in m && m[order.ID] == order && forall id :: id in m && m[id] == order ==> id == order.ID
  {
  }

  lemma IndexBoth(m: Index, a: set<Order>, b: set<Order>, last: U64)
    requires IndexHolds(m, a) && IndexHolds(m, b) && IndexWithin(m, a + b, last)
    ensures IndexExact(m, a + b, last)
  {
  }

  /** A side some of whose levels may have emptied. */
  ghost predicate Shrunk(v: SideV, v': SideV) {
    v'.Keys == v.Keys && forall p :: p in v && Flat(v[p]) == [] ==> Flat(v'[p]) == []
  }

  lemma UncrossedShrunk(side: Side, own: SideV, opposite: SideV, own': SideV)
    requires Uncrossed(side, own, opposite) && Shrunk(own, own')
    ensures Uncrossed(side, own', opposite)
  {
    hide Flat;
  }

  lemma RanJoin(fills: seq<Fill>, a: Snap, b: Snap)
    requires Traded(fills, a.trades, b.trades, a.id, b.id, a.taker, b.taker)
    requires b.resting <= a.resting && Removed(a.index, b.index, a.resting - b.resting)
    ensures Ran(fills, a, b)
  {
  }

  /** Matching only empties levels, so it crosses nothing. */
  lemma UncrossedAfter(side: Side, limit: U64, own: SideV, v0: SideV, v: SideV)
    requires Untouched(Other(side), v0, v, limit) && Uncrossed(side, own, v0)
    ensures Uncrossed(side, own, v)
  {
    hide Flat;
  }

  /** The prices with volume. */
  ghost function Occupied(v: SideV): set<U64> {
    set p | p in v && Flat(v[p]) != []
  }

  /** The best price with volume, or 0 when there is none. */
  ghost function BestPrice(book: Side, v: SideV): U64 {
    if Occupied(v) == {} then 0 else Best(book, Occupied(v))
  }

  /** Where nothing is eligible nothing is traded. */
  lemma ExecutedIdle(book: Side, limit: U64, v0: SideV, v: SideV, a: Snap, b: Snap)
    requires Executed(book, limit, v0, v, a, b) && forall p :: p in v0 ==> !Eligible(book, p, limit)
    ensures v == v0 && b.taker == a.taker && b.trades == a.trades
    ensures a.resting == {} ==> b.index == a.index
  {
    hide Flat, FillQueue;
    assert EligiblePrices(book, v0, limit) == {};
    FillNone([], a.taker.Remaining());
  }
}
