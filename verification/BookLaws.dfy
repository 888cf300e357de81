/** What every run of a taker against a side conserves and respects. */
module BookLaws {
  import opened Words
  import opened MatchSpec
  import opened BookObjects
  import opened PriceTrie
  import opened BookSpec
  import opened BookSides

  /** All that remains on a side. */
  ghost function SideVolume(book: Side, v: SideV): nat {
    Sum(FlatPrices(book, v, v.Keys))
  }

  function TradedSize(trades: seq<Trade>): nat {
    if trades == [] then 0 else trades[0].Size + TradedSize(trades[1..])
  }

  lemma {:induction false} TradedSizeOf(id: U64, taker: OrderV, fills: seq<Fill>)
    ensures TradedSize(TradesOf(id, taker, fills)) == Amount(fills)
    decreases |fills|
  {
    if fills != [] {
      assert TradesOf(id, taker, fills)[1..] == TradesOf(NextId(id), taker, fills[1..]);
      TradedSizeOf(NextId(id), taker, fills[1..]);
    }
  }

  /** The eligible prices come before the others. */
  lemma {:induction false} EligibleFirst(book: Side, v: SideV, limit: U64, ps: set<U64>)
    requires ps <= v.Keys
    ensures var e := set p | p in ps && Eligible(book, p, limit);
            FlatPrices(book, v, ps) == FlatPrices(book, v, e) + FlatPrices(book, v, ps - e)
    decreases ps
  {
    var e := set p | p in ps && Eligible(book, p, limit);
    if ps != {} {
      var best := Best(book, ps);
      var without := ps - {best};
      if best in e {
        EligibleFirst(book, v, limit, without);
        assert (set p | p in without && Eligible(book, p, limit)) == e - {best};
        assert without - (e - {best}) == ps - e;
        assert Best(book, e) == best;
      } else {
        assert e == {};
        assert ps - e == ps;
      }
    }
  }

  ghost predicate Conserved(book: Side, limit: U64, v0: SideV, v: SideV, a: Snap, b: Snap) {
    && |a.trades| <= |b.trades| && b.trades[..|a.trades|] == a.trades
    && var traded := TradedSize(b.trades[|a.trades|..]);
       && traded == Min(a.taker.Remaining(), Sum(FlatSide(book, v0, limit)))
       && b.taker.filled == a.taker.filled + traded
       && SideVolume(book, v) == SideVolume(book, v0) - traded
  }

  /** Conservation: the traded total is what the taker gained, what the side lost, and the smaller of what the
      taker wanted and what its limit could reach. */
  lemma Conservation(book: Side, limit: U64, v0: SideV, v: SideV, a: Snap, b: Snap)
    requires Executed(book, limit, v0, v, a, b)
    ensures Conserved(book, limit, v0, v, a, b)
  {
    hide FlatSide, Sum;
    var q, need := FlatSide(book, v0, limit), a.taker.Remaining();
    var fills := FillQueue(q, need).fills;
    FillAmount(q, need);
    RanAmount(fills, a, b);
    TradedSizeOf(a.id, a.taker, fills);
    assert b.trades[|a.trades|..] == TradesOf(a.id, a.taker, fills);
    SideSplit(book, v0, limit);
    SideSplit(book, v, limit);
    assert EligiblePrices(book, v, limit) == EligiblePrices(book, v0, limit);
    FlatUnchanged(book, v0, v, v.Keys - EligiblePrices(book, v, limit));
  }

  lemma SideSplit(book: Side, v: SideV, limit: U64)
    ensures SideVolume(book, v) == Sum(FlatSide(book, v, limit)) + Sum(FlatPrices(book, v,
      v.Keys - EligiblePrices(book, v, limit)))
  {
    EligibleFirst(book, v, limit, v.Keys);
    assert EligiblePrices(book, v, limit) == set p | p in v.Keys && Eligible(book, p, limit);
    SumAppend(FlatSide(book, v, limit), FlatPrices(book, v, v.Keys - EligiblePrices(book, v, limit)));
  }

  /** Every order on the table has something left, the price of its level and the number of its slot. */
  ghost predicate Priced(v: SideV) {
    forall p :: p in v ==> PricedAt(v[p], p)
  }

  ghost predicate PricedAt(lv: seq<Queue>, p: U64) {
    forall s :: 0 <= s < |lv| ==> forall o :: o in lv[s] ==> o.price == p && o.slot == s && o.Remaining() > 0
  }

  lemma SidePriced(t: Trie)
    requires SideOk(t)
    ensures Priced(SideView(t))
  {
    hide Trie.Valid;
    forall p | p in t.levels ensures PricedAt(t.levels[p].View(), p) {
      t.LevelsKnown();
      t.levels[p].ViewAt();
    }
  }

  // ---------------------------------------------------------------- the queue of a side

  /** The orders of q at one price and in one slot, in order. */
  function At(q: Queue, p: U64, s: nat): Queue {
    if q == [] then [] else (if q[0].price == p && q[0].slot == s then [q[0]] else []) + At(q[1..], p, s)
  }

  /** Within the limit of a taker who meets this side. */
  predicate Within(book: Side, p: U64, limit: U64) {
    match book
    case SELL => p <= limit
    case BUY => limit <= p
  }

  ghost function Offered(book: Side, v: SideV, limit: U64): set<U64> {
    set p | p in v && Within(book, p, limit)
  }

  /** a before b: asks by rising and bids by falling price, and at one price by rising slot. */
  predicate Before(book: Side, a: OrderV, b: OrderV) {
    if a.price == b.price then a.slot <= b.slot
    else match book
      case SELL => a.price < b.price
      case BUY => b.price < a.price
  }

  /** The queue q is what the levels at the prices ps hold: every slot's orders, in their own order, and the slots one
      behind the other by price and number. */
  ghost predicate ReadOut(book: Side, v: SideV, ps: set<U64>, q: Queue)
    requires ps <= v.Keys
  {
    && (forall i, j :: 0 <= i < j < |q| ==> Before(book, q[i], q[j]))
    && (forall i :: 0 <= i < |q| ==> q[i].price in ps && q[i].slot < 16)
    && forall p, s :: p in ps && 0 <= s < 16 ==> At(q, p, s) == v[p][s]
  }

  lemma {:induction false} AtAppend(a: Queue, b: Queue, p: U64, s: nat)
    ensures At(a + b, p, s) == At(a, p, s) + At(b, p, s)
  {
    if a == [] {
      assert a + b == b;
    } else {
      assert (a + b)[1..] == a[1..] + b;
      AtAppend(a[1..], b, p, s);
    }
  }

  lemma {:induction false} AtNone(q: Queue, p: U64, s: nat)
    requires forall i :: 0 <= i < |q| ==> q[i].price != p || q[i].slot != s
    ensures At(q, p, s) == []
  {
    if q != [] { AtNone(q[1..], p, s); }
  }

  lemma {:induction false} AtAll(q: Queue, p: U64, s: nat)
    requires forall i :: 0 <= i < |q| ==> q[i].price == p && q[i].slot == s
    ensures At(q, p, s) == q
  {
    if q != [] { AtAll(q[1..], p, s); }
  }

  /** q holds exactly the orders of one level. */
  ghost predicate OneLevel(q: Queue, p: U64, lv: seq<Queue>) {
    && (forall i :: 0 <= i < |q| ==> q[i].price == p && q[i].slot < |lv|)
    && (forall i, j :: 0 <= i < j < |q| ==> q[i].slot <= q[j].slot)
    && forall s :: 0 <= s < |lv| ==> At(q, p, s) == lv[s]
  }

  /** One level, slot after slot. */
  lemma {:induction false} LevelRead(lv: seq<Queue>, p: U64)
    requires PricedAt(lv, p)
    ensures OneLevel(FlatTo(lv), p, lv) && Live(FlatTo(lv))
  {
    if lv != [] {
      var n := |lv| - 1;
      var front, back := FlatTo(lv[..n]), lv[n];
      LevelRead(lv[..n], p);
      assert forall i :: 0 <= i < |back| ==> back[i] in lv[n];
      forall s | 0 <= s < |lv| ensures At(FlatTo(lv), p, s) == lv[s] {
        AtAppend(front, back, p, s);
        if s == n {
          AtNone(front, p, s);
          AtAll(back, p, s);
        } else {
          AtNone(back, p, s);
        }
      }
    }
  }

  lemma JoinOrder(book: Side, v: SideV, ps: set<U64>, best: U64, front: Queue, back: Queue)
    requires ps <= v.Keys && IsBest(book, ps, best) && OneLevel(front, best, v[best])
    requires ReadOut(book, v, ps - {best}, back)
    ensures forall i, j :: 0 <= i < j < |front + back| ==> Before(book, (front + back)[i], (front + back)[j])
    ensures forall i :: 0 <= i < |front + back| ==> (front + back)[i].price in ps && (front + back)[i].slot < 16
  {
    hide At;
    var q, n := front + back, |front|;
    forall i, j | 0 <= i < j < |q| ensures Before(book, q[i], q[j]) {
      if i < n <= j {
        assert q[j] == back[j - n] && back[j - n].price in ps - {best};
        assert Better(book, best, q[j].price);
      } else if n <= i {
        assert q[i] == back[i - n] && q[j] == back[j - n];
      }
    }
  }

  lemma JoinAt(book: Side, v: SideV, ps: set<U64>, best: U64, front: Queue, back: Queue)
    requires ps <= v.Keys && best in ps && OneLevel(front, best, v[best]) && ReadOut(book, v, ps - {best}, back)
    ensures forall p, s :: p in ps && 0 <= s < 16 ==> At(front + back, p, s) == v[p][s]
  {
    hide At, Before;
    forall p, s | p in ps && 0 <= s < 16 ensures At(front + back, p, s) == v[p][s] {
      AtAppend(front, back, p, s);
      if p == best { AtNone(back, p, s); } else { AtNone(front, p, s); }
    }
  }

  lemma {:induction false} PricesRead(book: Side, v: SideV, ps: set<U64>)
    requires ps <= v.Keys && Priced(v)
    ensures ReadOut(book, v, ps, FlatPrices(book, v, ps))
    decreases ps
  {
    hide FlatTo, At, PricedAt, Before, IsBest, OneLevel, ReadOut;
    if ps == {} {
      NothingRead(book, v);
    } else {
      var best := Best(book, ps);
      BestThere(book, ps);
      LevelRead(v[best], best);
      PricesRead(book, v, ps - {best});
      JoinRead(book, v, ps, best, Flat(v[best]), FlatPrices(book, v, ps - {best}));
    }
  }

  lemma BestThere(book: Side, ps: set<U64>)
    requires ps != {}
    ensures Best(book, ps) in ps
  {
  }

  lemma NothingRead(book: Side, v: SideV)
    ensures ReadOut(book, v, {}, [])
  {
  }

  lemma JoinRead(book: Side, v: SideV, ps: set<U64>, best: U64, front: Queue, back: Queue)
    requires ps <= v.Keys && IsBest(book, ps, best) && OneLevel(front, best, v[best])
    requires ReadOut(book, v, ps - {best}, back)
    ensures ReadOut(book, v, ps, front + back)
  {
    hide At, Before, OneLevel;
    JoinOrder(book, v, ps, best, front, back);
    JoinAt(book, v, ps, best, front, back);
  }

  lemma {:induction false} PricesLive(book: Side, v: SideV, ps: set<U64>)
    requires ps <= v.Keys && Priced(v)
    ensures Live(FlatPrices(book, v, ps))
    decreases ps
  {
    hide FlatTo, PricedAt, At;
    if ps != {} {
      LevelRead(v[Best(book, ps)], Best(book, ps));
      PricesLive(book, v, ps - {Best(book, ps)});
    }
  }

  /** What a taker with this limit faces. */
  lemma SideRead(book: Side, v: SideV, limit: U64)
    requires Priced(v)
    ensures ReadOut(book, v, Offered(book, v, limit), FlatSide(book, v, limit)) && Live(FlatSide(book, v, limit))
  {
    hide ReadOut, FlatPrices, Live;
    assert EligiblePrices(book, v, limit) == Offered(book, v, limit);
    PricesRead(book, v, EligiblePrices(book, v, limit));
    PricesLive(book, v, EligiblePrices(book, v, limit));
  }

  // ---------------------------------------------------------------- priority

  /** The trade of a taker with the order it meets: who, at what price, how much at most, and who has something left;
      `left` is what the taker wants after it. */
  predicate Met(trade: Trade, id: nat, taker: OrderV, maker: OrderV, left: int) {
    && trade.TradeID == id
    && trade.TakerOrderID == taker.id && trade.TakerTraderID == taker.trader && trade.TakerSide == taker.side
    && trade.MakerOrderID == maker.id && trade.MakerTraderID == maker.trader && trade.Price == maker.price
    && 0 < trade.Size <= maker.Remaining()
    && (trade.MakerPartial <==> trade.Size < maker.Remaining())
    && (trade.TakerPartial <==> left > 0)
  }

  /** The taker meets the orders of the queue one after the other, with consecutive trade ids, and takes all that
      remains of each but perhaps the last. */
  predicate MetInTurn(q: Queue, id: U64, taker: OrderV, trades: seq<Trade>)
    requires |trades| <= |q|
  {
    forall i :: 0 <= i < |trades| ==>
      && Met(trades[i], (id + i + 1) % 0x1_0000_0000_0000_0000, taker, q[i],
             taker.Remaining() - TradedSize(trades[..i + 1]))
      && (i < |trades| - 1 ==> trades[i].Size == q[i].Remaining())
  }

  predicate AnyPartial(trades: seq<Trade>) {
    exists i :: 0 <= i < |trades| && trades[i].TakerPartial
  }

  /** The taker meets the orders of the opposite side within its limit: best price first, then by slot and arrival.  It
      is filled by what is traded, and the orders behind the last one it meets stay as they are. */
  ghost predicate ByPriority(book: Side, limit: U64, v0: SideV, v: SideV, a: Snap, b: Snap) {
    var q, k := FlatSide(book, v0, limit), |a.trades|;
    && ReadOut(book, v0, Offered(book, v0, limit), q)
    && k <= |b.trades| <= k + |q| && b.trades[..k] == a.trades
    && var trades := b.trades[k..];
       && MetInTurn(q, a.id, a.taker, trades) && b.id == (a.id + |trades|) % 0x1_0000_0000_0000_0000
       && b.taker == a.taker.(filled := a.taker.filled + TradedSize(trades),
                              partial := a.taker.partial || AnyPartial(trades))
       && FlatSide(book, v, limit) == Behind(q, trades)
  }

  /** What stays of the queue: the last order met, if something of it is left, and all behind it. */
  function Behind(q: Queue, trades: seq<Trade>): Queue
    requires |trades| <= |q|
  {
    var n := |trades|;
    if n > 0 && trades[n - 1].Size < q[n - 1].Remaining()
    then [q[n - 1].(filled := q[n - 1].filled + trades[n - 1].Size, partial := true)] + q[n..]
    else q[n..]
  }

  lemma PriceTimePriority(book: Side, limit: U64, v0: SideV, v: SideV, a: Snap, b: Snap)
    requires Executed(book, limit, v0, v, a, b) && Priced(v0)
    ensures ByPriority(book, limit, v0, v, a, b)
  {
    hide FlatSide, FillQueue, Removed, Untouched, Live, ReadOut, Sum, Advance, TradedSize, Behind, TradesOf, TakerAfter,
      MetInTurn, AnyPartial, Priced;
    var q, k, need := FlatSide(book, v0, limit), |a.trades|, a.taker.Remaining();
    var fills := FillQueue(q, need).fills;
    SideRead(book, v0, limit);
    RanAmount(fills, a, b);
    AdvanceIs(a.id, |fills|);
    assert b.trades[k..] == TradesOf(a.id, a.taker, fills) && b.trades[..k] == a.trades;
    TradedSizeOf(a.id, a.taker, fills);
    PartialAfter(a.id, a.taker, fills);
    AllMet(q, need, a.id, a.taker);
    BehindFills(q, need, a.id, a.taker);
  }

  lemma AllMet(q: Queue, need: nat, id: U64, taker: OrderV)
    requires Live(q) && need == taker.Remaining()
    ensures var trades := TradesOf(id, taker, FillQueue(q, need).fills);
            |trades| == |FillQueue(q, need).fills| <= |q| && MetInTurn(q, id, taker, trades)
  {
    hide FillQueue, TradesOf, TradedSize, Live, Met;
    var fills := FillQueue(q, need).fills;
    FillSizes(q, need);
    TradesCount(id, taker, fills);
    forall i | 0 <= i < |fills|
      ensures Met(TradesOf(id, taker, fills)[i], (id + i + 1) % 0x1_0000_0000_0000_0000, taker, q[i],
                need - TradedSize(TradesOf(id, taker, fills)[..i + 1]))
      ensures i < |fills| - 1 ==> TradesOf(id, taker, fills)[i].Size == q[i].Remaining()
    {
      MetAt(q, need, id, taker, i);
    }
  }

  /** One trade of a run. */
  lemma MetAt(q: Queue, need: nat, id: U64, taker: OrderV, i: nat)
    requires Live(q) && i < |FillQueue(q, need).fills| <= |q|
    ensures var trades := TradesOf(id, taker, FillQueue(q, need).fills);
            && |trades| == |FillQueue(q, need).fills|
            && Met(trades[i], (id + i + 1) % 0x1_0000_0000_0000_0000, taker, q[i],
                 need - TradedSize(trades[..i + 1]))
            && (i < |trades| - 1 ==> trades[i].Size == q[i].Remaining())
  {
    hide Live, FillQueue, TradesOf, TradedSize, Advance;
    var fills := FillQueue(q, need).fills;
    TradeAt(id, taker, fills, i);
    AdvanceIs(id, i + 1);
    FillFlags(q, need, i);
    FillIsPrefix(q, need);
    FillSizes(q, need);
    TradesFront(id, taker, fills, i + 1);
    TradedSizeOf(id, taker, fills[..i + 1]);
  }

  lemma {:induction false} AdvanceIs(id: U64, n: nat)
    ensures Advance(id, n) == (id + n) % 0x1_0000_0000_0000_0000
    decreases n
  {
    if n > 0 { AdvanceIs(NextId(id), n - 1); }
  }

  lemma {:induction false} TradesFront(id: U64, taker: OrderV, fills: seq<Fill>, n: nat)
    requires n <= |fills|
    ensures |TradesOf(id, taker, fills)| == |fills|
    ensures TradesOf(id, taker, fills)[..n] == TradesOf(id, taker, fills[..n])
    decreases |fills|
  {
    if fills != [] {
      TradesFront(NextId(id), taker, fills[1..], if n > 0 then n - 1 else 0);
      if n > 0 {
        assert fills[..n][1..] == fills[1..][..n - 1] && fills[..n][0] == fills[0];
      }
    }
  }

  lemma AmountFront(f: Fill, tail: seq<Fill>, i: nat)
    requires i <= |tail|
    ensures Amount(([f] + tail)[..i + 1]) == f.size + Amount(tail[..i])
  {
    assert ([f] + tail)[..i + 1] == [f] + tail[..i];
    assert ([f] + tail[..i])[1..] == tail[..i];
  }

  /** Who trades, and who has something left after it. */
  lemma {:induction false} FillFlags(q: Queue, need: nat, i: nat)
    requires i < |FillQueue(q, need).fills| <= |q|
    ensures var fills := FillQueue(q, need).fills;
            && fills[i].makerTrader == q[i].trader && (fills[i].makerPartial <==> fills[i].size < q[i].Remaining())
            && (fills[i].takerPartial <==> Amount(fills[..i + 1]) < need)
  {
    var fills := FillQueue(q, need).fills;
    if i == 0 {
      assert fills[..1] == [fills[0]] && [fills[0]][1..] == [];
    } else {
      var left := need - q[0].Remaining();
      var tail := FillQueue(q[1..], left).fills;
      assert fills == [FillHead(q[0], need)] + tail;
      FillFlags(q[1..], left, i - 1);
      AmountFront(FillHead(q[0], need), tail, i);
    }
  }

  lemma {:induction false} FillSizes(q: Queue, need: nat)
    requires Live(q)
    ensures |FillQueue(q, need).fills| <= |q|
    ensures forall i :: 0 <= i < |FillQueue(q, need).fills| ==> 0 < FillQueue(q, need).fills[i].size <= q[i].Remaining()
    ensures forall i :: 0 <= i < |FillQueue(q, need).fills| - 1 ==> FillQueue(q, need).fills[i].size == q[i].Remaining()
  {
    if need != 0 && q != [] && need >= q[0].Remaining() {
      FillSizes(q[1..], need - q[0].Remaining());
    }
  }

  lemma {:induction false} TradeAt(id: U64, taker: OrderV, fills: seq<Fill>, i: nat)
    requires i < |fills|
    ensures i < |TradesOf(id, taker, fills)| && TradesOf(id, taker, fills)[i] ==
      TradeOf(Advance(id, i + 1), taker, fills[i])
    decreases |fills|
  {
    if i > 0 { TradeAt(NextId(id), taker, fills[1..], i - 1); }
    assert Advance(id, 1) == Advance(NextId(id), 0);
    TradesCount(id, taker, fills);
  }

  lemma {:induction false} PartialAfter(id: U64, taker: OrderV, fills: seq<Fill>)
    ensures TakerAfter(taker, fills).partial <==> taker.partial || AnyPartial(TradesOf(id, taker, fills))
    decreases |fills|
  {
    if fills != [] {
      hide AnyPartial;
      var step := TakerStep(taker, fills[0]);
      PartialAfter(NextId(id), step, fills[1..]);
      TradesSameTaker(NextId(id), taker, step, fills[1..]);
      PartialCons(TradeOf(NextId(id), taker, fills[0]), TradesOf(NextId(id), taker, fills[1..]));
    }
  }

  lemma PartialCons(trade: Trade, more: seq<Trade>)
    ensures AnyPartial([trade] + more) <==> trade.TakerPartial || AnyPartial(more)
  {
    var trades := [trade] + more;
    assert trades[0] == trade && forall i :: 0 <= i < |more| ==> trades[i + 1] == more[i];
  }

  lemma BehindFills(q: Queue, need: nat, id: U64, taker: OrderV)
    requires Live(q)
    ensures var trades := TradesOf(id, taker, FillQueue(q, need).fills);
            |trades| <= |q| && FillQueue(q, need).rest == Behind(q, trades)
  {
    hide FillQueue, Live, TradesOf, Advance;
    var fills := FillQueue(q, need).fills;
    FillIsPrefix(q, need);
    TradesCount(id, taker, fills);
    if fills != [] {
      TradeAt(id, taker, fills, |fills| - 1);
      FillFlags(q, need, |fills| - 1);
    }
  }
}
