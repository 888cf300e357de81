/** The order book: two tries of levels, an index by id, cached best levels and a trade log. */
module OrderBook {
  import opened Words
  import opened MatchSpec
  import opened BookObjects
  import opened PriceTrie
  import opened BookSpec
  import opened BookSides

  class OrderBook {
    const buy: Trie
    const sell: Trie
    var bestBidCache: PriceLevel?
    var bestAskCache: PriceLevel?
    var OrderIndex: Index
    var Trades: seq<Trade>
    var nextOrderID: U64
    var nextTradeID: U64

    constructor ()
      ensures Valid() && Fresh(SELL) && Table(BUY) == map[] && Table(SELL) == map[]
      ensures OrderIndex == map[] && Trades == [] && nextOrderID == 0 && nextTradeID == 0
      ensures NewSide(buy) && NewSide(sell)
      ensures buy.levels == sell.levels == map[] && buy.orders == sell.orders == {}
    {
      hide Trie.Valid, Valid, Table, Fresh, Shape, Sound;
      buy := new Trie(BUY);
      sell := new Trie(SELL);
      bestBidCache, bestAskCache := null, null;
      OrderIndex := map[];
      Trades := [];
      nextOrderID, nextTradeID := 0, 0;
      new;
      EmptyBook();
    }

    lemma EmptyBook()
      requires Sides() && buy.Valid() && sell.Valid() && buy.levels == sell.levels == map[]
        && buy.orders == sell.orders == {}
      requires buy.nodes.Values !! sell.nodes.Values
      requires bestBidCache == null && bestAskCache == null && OrderIndex == map[]
      ensures Valid() && Fresh(SELL) && Table(BUY) == map[] && Table(SELL) == map[]
    {
      hide Trie.Valid, Trie.CacheOk, SideOk, SideView;
      EmptySide(buy);
      EmptySide(sell);
    }

    /** The part of the state that matching at one level changes. */
    ghost function Now(taker: Order, level: PriceLevel): Snap
      reads this`Trades, this`nextTradeID, this`OrderIndex, taker, level
    {
      Snap(Trades, nextTradeID, taker.View(), OrderIndex, level.Resting)
    }

    // -------------------------------------------------------------- matching inside one level

    /** One trade against the first order of a slot. */
    method ExecuteOne(taker: Order, level: PriceLevel, s: nat) returns (done: bool)
      requires level.Valid() && s < WIDTH && level.Slots[s].Orders != []
      requires !taker.IsFilled() && taker !in level.Resting
      requires IndexHolds(OrderIndex, level.Resting)
      modifies this`Trades, this`OrderIndex, this`nextTradeID, level, level.Slots[s].Orders[0], taker
      ensures level.Valid() && IndexHolds(OrderIndex, level.Resting)
      ensures var q, need := old(level.View()[s]), old(taker.RemainingSize());
              && level.View() == old(level.View())[s := AfterHead(q, Min(need, q[0].Remaining()))]
              && Ran([FillHead(q[0], need)], old(Now(taker, level)), Now(taker, level))
              && taker.RemainingSize() == need - Min(need, q[0].Remaining())
              && (done <==> q[0].Remaining() <= need)
    {
      hide PriceLevel.Valid, PriceLevel.View, SlotOk, AfterHead, Removed, Ran;
      level.HeadFacts(s);
      var makerOrder := level.Slots[s].Orders[0];
      RemovedMaker(OrderIndex, level.Resting, makerOrder);
      ghost var f := FillHead(makerOrder.View(), taker.RemainingSize());
      var takerRemaining := taker.RemainingSize();
      var makerRemaining := makerOrder.RemainingSize();
      var executeSize := takerRemaining;
      if makerRemaining < executeSize {
        executeSize := makerRemaining;
      }
      nextTradeID := NextId(nextTradeID);
      var makerId, makerTrader := makerOrder.ID, makerOrder.TraderID;
      var takerPartial := taker.Fill(executeSize);
      var maker;
      maker, done := level.ExecuteHead(s, executeSize);
      Trades := Trades + [Trade(nextTradeID, taker.ID, makerId, taker.TraderID, makerTrader, level.Price, executeSize,
                                taker.Side, takerPartial, !done)];
      Retire(maker, level, done);
      RanOne(f, old(Now(taker, level)), Now(taker, level));
    }

    /** A maker that is used up leaves the index and goes back to the pool. */
    method Retire(maker: Order, level: PriceLevel, done: bool)
      requires level.Valid() && (done <==> maker !in level.Resting)
      requires IndexHolds(OrderIndex, level.Resting + {maker})
      modifies this`OrderIndex, maker
      ensures level.Valid() && level.View() == old(level.View()) && IndexHolds(OrderIndex, level.Resting)
      ensures OrderIndex == if done then old(OrderIndex) - {old(maker.ID)} else old(OrderIndex)
    {
      hide PriceLevel.Valid, PriceLevel.View;
      if done {
        OrderIndex := OrderIndex - {maker.ID};
        maker.Clear();
      } else {
        assert level.Resting + {maker} == level.Resting;
      }
    }

    /** FIFO within a slot: the loop over `slot.Orders`. */
    method FillSlot(taker: Order, level: PriceLevel, s: nat)
      requires level.Valid() && s < WIDTH && taker !in level.Resting
      requires IndexHolds(OrderIndex, level.Resting)
      modifies this`Trades, this`OrderIndex, this`nextTradeID, level, level.Resting, taker
      ensures level.Valid() && IndexHolds(OrderIndex, level.Resting)
      ensures var q, need := old(level.View()[s]), old(taker.RemainingSize());
              && level.View() == old(level.View())[s := FillQueue(q, need).rest]
              && Ran(FillQueue(q, need).fills, old(Now(taker, level)), Now(taker, level))
              && taker.RemainingSize() == need - Min(need, Sum(q))
    {
      hide PriceLevel.Valid, PriceLevel.View, SlotOk, Ran, FillQueue, IndexHolds, AfterHead, FillHead, Order.View, Sum;
      ghost var v0, need0 := level.View(), taker.RemainingSize();
      ghost var q0, r := v0[s], FillQueue(v0[s], need0);
      ghost var done: seq<Fill> := [];
      RanNothing(Now(taker, level));
      level.SlotFacts(s);
      var i := 0;
      while i < |level.Slots[s].Orders|
        invariant |level.Slots| == WIDTH && level.Valid() && level.Resting <= old(level.Resting)
        invariant IndexHolds(OrderIndex, level.Resting)
        invariant i > 0 ==> taker.IsFilled()
        invariant Ran(done, old(Now(taker, level)), Now(taker, level))
        invariant r.fills == done + FillQueue(level.View()[s], taker.RemainingSize()).fills
        invariant r.rest == FillQueue(level.View()[s], taker.RemainingSize()).rest
        invariant need0 - Min(need0, Sum(q0)) == taker.RemainingSize() - Min(taker.RemainingSize(),
          Sum(level.View()[s]))
        invariant level.View() == v0[s := level.View()[s]]
        decreases taker.RemainingSize(), |level.Slots[s].Orders| - i
      {
        if taker.IsFilled() {
          break;
        }
        label Before:
        ghost var q, need := level.View()[s], taker.RemainingSize();
        level.SlotFacts(s);
        level.HeadFacts(s);
        ghost var f := FillHead(q[0], need);
        FillOnce(q, need);
        var removed := ExecuteOne(taker, level, s);
        if !removed {
          i := i + 1;
        }
        level.SlotFacts(s);
        RanAgain(done, [f], old(Now(taker, level)), old@Before(Now(taker, level)), Now(taker, level));
        assert done + [f] + FillQueue(level.View()[s], taker.RemainingSize()).fills
            == done + ([f] + FillQueue(level.View()[s], taker.RemainingSize()).fills);
        done := done + [f];
      }
      level.SlotFacts(s);
      FillNone(level.View()[s], taker.RemainingSize());
      assert done + [] == done;
    }
  
    /** Slots 0 to 15 of one level, until the taker is filled. */
    method FillLevel(taker: Order, level: PriceLevel)
      requires level.Valid() && taker !in level.Resting
      requires IndexHolds(OrderIndex, level.Resting)
      modifies this`Trades, this`OrderIndex, this`nextTradeID, level, level.Resting, taker
      ensures level.Valid() && IndexHolds(OrderIndex, level.Resting)
      ensures var q, need := old(Flat(level.View())), old(taker.RemainingSize());
              && Flat(level.View()) == FillQueue(q, need).rest
              && Ran(FillQueue(q, need).fills, old(Now(taker, level)), Now(taker, level))
              && taker.RemainingSize() == need - Min(need, Sum(q))
    {
      hide PriceLevel.Valid, PriceLevel.View, SlotOk, Ran, FillQueue, IndexHolds, Order.View, Sum;
      ghost var v0, need0 := level.View(), taker.RemainingSize();
      ghost var done: seq<Fill> := [];
      RanNothing(Now(taker, level));
      FillNone([], need0);
      var slotIdx := 0;
      while slotIdx < WIDTH
        invariant 0 <= slotIdx <= WIDTH && level.Valid() && level.Resting <= old(level.Resting)
        invariant IndexHolds(OrderIndex, level.Resting)
        invariant Ran(done, old(Now(taker, level)), Now(taker, level))
        invariant done == FillQueue(FlatTo(v0[..slotIdx]), need0).fills
        invariant FlatTo(level.View()[..slotIdx]) == FillQueue(FlatTo(v0[..slotIdx]), need0).rest
        invariant taker.RemainingSize() == need0 - Min(need0, Sum(FlatTo(v0[..slotIdx])))
        invariant level.View()[slotIdx..] == v0[slotIdx..]
      {
        if taker.IsFilled() {
          break;
        }
        label Before:
        ghost var before, q, need := level.View(), level.View()[slotIdx], taker.RemainingSize();
        FillSlot(taker, level, slotIdx);
        level.ZeroIfEmpty(slotIdx);
        SlotStep(v0, before, slotIdx, need0, need);
        RanAgain(done, FillQueue(q, need).fills, old(Now(taker, level)), old@Before(Now(taker, level)),
          Now(taker, level));
        done := done + FillQueue(q, need).fills;
        slotIdx := slotIdx + 1;
      }
      LevelEnd(v0, level.View(), slotIdx, need0, taker.RemainingSize());
      assert done + [] == done;
    }
  
    // -------------------------------------------------------------- matching across levels

    ghost predicate Sides()
    {
      buy.side == BUY && sell.side == SELL
    }

    function Opposite(side: Side): Trie {
      if side == BUY then sell else buy
    }

    function Own(side: Side): Trie {
      if side == BUY then buy else sell
    }

    ghost predicate CachesOk()
      reads this`bestBidCache, this`bestAskCache, buy, sell, buy.levels.Values, sell.levels.Values
    {
      buy.CacheOk(bestBidCache) && sell.CacheOk(bestAskCache)
    }

    function Cache(side: Side): PriceLevel?
      reads this`bestBidCache, this`bestAskCache
    {
      if side == BUY then bestBidCache else bestAskCache
    }

    /** The cached level of a side still has volume. */
    ghost predicate Fresh(side: Side)
      reads this`bestBidCache, this`bestAskCache, Cache(side)
    {
      Cache(side) == null || Cache(side).TotalVolume > 0
    }

    twostate predicate StaysFresh()
      reads this`bestBidCache, this`bestAskCache, bestBidCache, bestAskCache
    {
      (old(Fresh(BUY)) ==> Fresh(BUY)) && (old(Fresh(SELL)) ==> Fresh(SELL))
    }

    method UpdateBestPricesCache()
      requires buy.Valid() && sell.Valid()
      modifies this`bestBidCache, this`bestAskCache
      ensures CachesOk() && Fresh(BUY) && Fresh(SELL)
    {
      hide Trie.Valid, Trie.CacheOk;
      bestBidCache := buy.FindBest();
      bestAskCache := sell.FindBest();
    }

    /** The choice at the head of the matching loop: the cached level of the opposite side, searched anew if it is
        missing or empty, and whether its price suits the taker.  It is the true best level with volume. */
    method BestOpposite(taker: Order) returns (bestLevel: PriceLevel?, canMatch: bool)
      requires Sides() && buy.Valid() && sell.Valid()
      requires CachesOk()
      modifies this`bestBidCache, this`bestAskCache
      ensures CachesOk() && StaysFresh()
      ensures var t := Opposite(taker.Side);
              if canMatch then bestLevel != null && TrueBest(t, bestLevel, taker.Price) else Exhausted(t, taker.Price)
    {
      hide Trie.Valid, Trie.CacheOk, TrueBest, Exhausted;
      if taker.Side == BUY {
        bestLevel := bestAskCache;
        if bestLevel == null || bestLevel.TotalVolume == 0 {
          bestAskCache := sell.FindBest();
          bestLevel := bestAskCache;
        }
        canMatch := bestLevel != null && bestLevel.TotalVolume > 0 && bestLevel.Price <= taker.Price;
      } else {
        bestLevel := bestBidCache;
        if bestLevel == null || bestLevel.TotalVolume == 0 {
          bestBidCache := buy.FindBest();
          bestLevel := bestBidCache;
        }
        canMatch := bestLevel != null && bestLevel.TotalVolume > 0 && bestLevel.Price >= taker.Price;
      }
      CacheChoice(Opposite(taker.Side), bestLevel, taker.Price);
    }

    /** The part of the state that matching against one side changes. */
    ghost function SideNow(taker: Order, t: Trie): Snap
      reads this`Trades, this`nextTradeID, this`OrderIndex, taker, t
    {
      Snap(Trades, nextTradeID, taker.View(), OrderIndex, t.orders)
    }

    /** One round of the matching loop: the best level. */
    method MatchLevel(taker: Order, level: PriceLevel, t: Trie)
      requires SideOk(t) && level.Price in t.levels && t.levels[level.Price] == level
      requires taker !in t.orders && IndexHolds(OrderIndex, t.orders)
      modifies this`Trades, this`OrderIndex, this`nextTradeID, level, level.Resting, taker, t`orders
      ensures SideOk(t) && level.Valid() && IndexHolds(OrderIndex, t.orders)
      ensures var q, need := old(Flat(level.View())), old(taker.RemainingSize());
              && Flat(level.View()) == FillQueue(q, need).rest
              && SideView(t) == old(SideView(t))[level.Price := level.View()]
              && Ran(FillQueue(q, need).fills, old(SideNow(taker, t)), SideNow(taker, t))
              && taker.RemainingSize() == need - Min(need, Sum(q))
    {
      hide PriceLevel.Valid, PriceLevel.View, IndexHolds, Ran, FillQueue, Sum, Trie.Valid, Removed, SideOk, SideView,
        OthersOk, OthersView, Flat;
      ghost var was, others := level.Resting, t.orders - level.Resting;
      SplitSide(t, level);
      SplitView(t, level);
      IndexPart(OrderIndex, t.orders, level.Resting);
      IndexPart(OrderIndex, t.orders, others);
      ghost var rest, view := OthersView(t, level.Price, others), level.View();
      FillLevel(taker, level);
      assert OthersOk(t, level.Price, others) && OthersView(t, level.Price, others) == rest;
      ghost var fills := FillQueue(old(Flat(level.View())), old(taker.RemainingSize())).fills;
      RanParts(fills, old(Now(taker, level)), Now(taker, level));
      IndexJoin(old(OrderIndex), OrderIndex, others, was - level.Resting, level.Resting);
      RanWithOthers(fills, old(Now(taker, level)), Now(taker, level), others);
      t.orders := others + level.Resting;
      JoinSide(t, level, others);
      JoinView(t, level, others);
      UpdateTwice(rest, level.Price, view, level.View());
      assert old(t.orders) == was + others && t.orders == level.Resting + others;
    }
  
    /** One round of the matching loop with the cache refresh after an emptied level. */
    method MatchRound(taker: Order, bestLevel: PriceLevel, t: Trie) returns (levelMatched: bool)
      requires Sides() && t == Opposite(taker.Side) && SideOk(t) && Own(taker.Side).Valid() && CachesOk()
      requires TrueBest(t, bestLevel, taker.Price)
      requires taker !in t.orders && IndexHolds(OrderIndex, t.orders) && !taker.IsFilled()
      modifies this`Trades, this`OrderIndex, this`nextTradeID, this`bestBidCache, this`bestAskCache
      modifies bestLevel, bestLevel.Resting, taker, t`orders
      ensures SideOk(t) && bestLevel.Valid() && CachesOk() && IndexHolds(OrderIndex, t.orders) && levelMatched
      ensures StaysFresh()
      ensures taker.Price == old(taker.Price) && taker.Side == old(taker.Side) && t.orders <= old(t.orders)
      ensures var q, need := old(Flat(bestLevel.View())), old(taker.RemainingSize());
              && Flat(bestLevel.View()) == FillQueue(q, need).rest
              && SideView(t) == old(SideView(t))[bestLevel.Price := bestLevel.View()]
              && Ran(FillQueue(q, need).fills, old(SideNow(taker, t)), SideNow(taker, t))
              && taker.RemainingSize() == need - Min(need, Sum(q)) < need
    {
      hide SideOk, SideView, Ran, FillQueue, Trie.Valid, IndexHolds, Flat, Sum, PriceLevel.Valid, PriceLevel.View,
        Live, FirstLevel, Trie.CacheOk;
      SideShape(t);
      BestFacts(t, bestLevel, taker.Price);
      OwnLevelsApart(bestLevel, t);
      ghost var q, need := Flat(bestLevel.View()), taker.RemainingSize();
      SomeFill(q, need);
      var before := |Trades|;
      MatchLevel(taker, bestLevel, t);
      RanAmount(FillQueue(q, need).fills, old(SideNow(taker, t)), SideNow(taker, t));
      RanParts(FillQueue(q, need).fills, old(SideNow(taker, t)), SideNow(taker, t));
      levelMatched := |Trades| > before;
      CachesKept(bestLevel);
      if bestLevel.TotalVolume == 0 {
        SideShape(t);
        UpdateBestPricesCache();
      }
    }

    /** Trading at a level with volume leaves the cached bounds true. */
    twostate lemma CachesKept(level: PriceLevel)
      requires old(CachesOk()) && old(level.TotalVolume) > 0
      requires bestBidCache == old(bestBidCache) && bestAskCache == old(bestAskCache)
      requires buy.levels == old(buy.levels) && sell.levels == old(sell.levels)
      requires forall p :: p in buy.levels && buy.levels[p] != level ==>
        buy.levels[p].TotalVolume == old(buy.levels[p].TotalVolume)
      requires forall p :: p in sell.levels && sell.levels[p] != level ==>
        sell.levels[p].TotalVolume == old(sell.levels[p].TotalVolume)
      ensures CachesOk()
    {
    }

    lemma OwnLevelsApart(level: PriceLevel, t: Trie)
      requires Sides() && buy.Valid() && sell.Valid() && (t == buy || t == sell)
      requires level.Price in t.levels && t.levels[level.Price] == level
      ensures var own := if t == buy then sell else buy; own != t && level !in own.levels.Values
      ensures forall p :: p in t.levels && p != level.Price ==> t.levels[p] != level
    {
      hide Trie.Valid;
      buy.LevelsKnown();
      sell.LevelsKnown();
    }

    /** The body of the matching loop: `again` is false when no eligible level is left. */
    method MatchStep(taker: Order, t: Trie, ghost v0: SideV, ghost s0: Snap, ghost need0: nat, ghost done: seq<Fill>)
      returns (again: bool, ghost done': seq<Fill>)
      requires Sides() && t == Opposite(taker.Side) && SideOk(t) && Own(taker.Side).Valid() && CachesOk()
      requires taker !in t.orders && IndexHolds(OrderIndex, t.orders) && !taker.IsFilled()
      requires PartWay(t.side, taker.Price, v0, s0, need0, done, SideView(t), SideNow(taker, t), taker.RemainingSize())
      modifies this`Trades, this`OrderIndex, this`nextTradeID, this`bestBidCache, this`bestAskCache, taker
      modifies t`orders, t.levels.Values, t.orders
      ensures taker.Side == old(taker.Side) && taker.Price == old(taker.Price) && SideOk(t) && CachesOk()
      ensures StaysFresh()
      ensures t.orders <= old(t.orders) && IndexHolds(OrderIndex, t.orders)
      ensures PartWay(t.side, taker.Price, v0, s0, need0, done', SideView(t), SideNow(taker, t), taker.RemainingSize())
      ensures again <==> old(!Exhausted(t, taker.Price))
      ensures again ==> taker.RemainingSize() < old(taker.RemainingSize())
      ensures !again ==> Exhausted(t, taker.Price) && FlatSide(t.side, SideView(t), taker.Price) == []
      ensures !again ==>
        SideNow(taker, t) == old(SideNow(taker, t)) && SideView(t) == old(SideView(t)) && unchanged(taker)
    {
      hide SideOk, SideView, Ran, FillQueue, Trie.Valid, IndexHolds, FlatSide, Flat, Sum, PriceLevel.Valid,
        PriceLevel.View, PartWay, FirstLevel, TrueBest, Exhausted, Trie.CacheOk;
      done' := done;
      SideShape(t);
      var bestLevel, canMatch := BestOpposite(taker);
      if !canMatch || bestLevel == null {
        NothingEligible(t, taker.Price);
        return false, done;
      }
      BestFacts(t, bestLevel, taker.Price);
      NotExhausted(t, bestLevel, taker.Price);
      ghost var book, limit, v, s, need, q := t.side, taker.Price, SideView(t), SideNow(taker, t),
              taker.RemainingSize(), Flat(bestLevel.View());
      again := MatchRound(taker, bestLevel, t);
      ghost var p, lv, s', need' := bestLevel.Price, bestLevel.View(), SideNow(taker, t), taker.RemainingSize();
      PartWayStep(book, limit, v0, s0, need0, done, v, s, need, p, lv, s', need');
      done' := done + FillQueue(q, need).fills;
    }

    /** The matching loop against the side t. */
    method MatchLoop(taker: Order, t: Trie)
      requires Sides() && t == Opposite(taker.Side) && SideOk(t) && Own(taker.Side).Valid() && CachesOk()
      requires taker !in t.orders && IndexHolds(OrderIndex, t.orders)
      modifies this`Trades, this`OrderIndex, this`nextTradeID, this`bestBidCache, this`bestAskCache, taker
      modifies t`orders, t.levels.Values, t.orders
      ensures SideOk(t) && CachesOk() && StaysFresh() && IndexHolds(OrderIndex, t.orders)
      ensures taker.Price == old(taker.Price) && taker.Side == old(taker.Side)
      ensures var q, need := old(FlatSide(t.side, SideView(t), taker.Price)), old(taker.RemainingSize());
              && FlatSide(t.side, SideView(t), taker.Price) == FillQueue(q, need).rest
              && Ran(FillQueue(q, need).fills, old(SideNow(taker, t)), SideNow(taker, t))
              && Untouched(t.side, old(SideView(t)), SideView(t), taker.Price)
              && (!taker.IsFilled() ==> Exhausted(t, taker.Price))
              && (old(Exhausted(t, taker.Price)) ==>
                   SideNow(taker, t) == old(SideNow(taker, t)) && SideView(t) == old(SideView(t)) && unchanged(taker))
              && (old(!Exhausted(t, taker.Price) && !taker.IsFilled()) ==> taker.RemainingSize() < need)
    {
      hide SideOk, SideView, Ran, FillQueue, Trie.Valid, IndexHolds, FlatSide, Untouched, PartWay, Exhausted,
        Trie.CacheOk;
      ghost var need0, s0, v0 := taker.RemainingSize(), SideNow(taker, t), SideView(t);
      ghost var done: seq<Fill> := [];
      PartWayStart(t.side, taker.Price, v0, s0, need0);
      while !taker.IsFilled()
        invariant taker.Side == old(taker.Side) && taker.Price == old(taker.Price) && SideOk(t) && CachesOk()
        invariant StaysFresh()
        invariant taker !in t.orders && t.orders <= old(t.orders) && IndexHolds(OrderIndex, t.orders)
        invariant PartWay(t.side, taker.Price, v0, s0, need0, done, SideView(t), SideNow(taker, t),
          taker.RemainingSize())
        invariant taker.RemainingSize() <= need0
          && (old(Exhausted(t, taker.Price)) ==>
               SideNow(taker, t) == s0 && SideView(t) == v0 && Exhausted(t, taker.Price) && unchanged(taker))
        invariant taker.RemainingSize() == need0 ==> Exhausted(t, taker.Price) == old(Exhausted(t, taker.Price))
        decreases taker.RemainingSize()
      {
        var again;
        again, done := MatchStep(taker, t, v0, s0, need0, done);
        if !again {
          break;
        }
      }
      PartWayEnd(t.side, taker.Price, v0, s0, need0, done, SideView(t), SideNow(taker, t), taker.RemainingSize());
    }

    /** `tryMatchUnsafe`: the taker consumes the opposite side, read out by price, slot and arrival,
        up to its limit price.  Nothing is asked of the taker's own side beyond its shape. */
    method TryMatch(taker: Order)
      requires Sides() && SideOk(Opposite(taker.Side)) && Own(taker.Side).Valid() && CachesOk()
      requires taker !in Opposite(taker.Side).orders && IndexHolds(OrderIndex, Opposite(taker.Side).orders)
      requires taker.ID in OrderIndex ==> OrderIndex[taker.ID] == taker
      requires forall id :: id in OrderIndex && OrderIndex[id] == taker ==> id == taker.ID
      modifies this`Trades, this`OrderIndex, this`nextTradeID, this`bestBidCache, this`bestAskCache, taker
      modifies Opposite(taker.Side)`orders, Opposite(taker.Side).levels.Values, Opposite(taker.Side).orders
      ensures taker.Price == old(taker.Price) && taker.Side == old(taker.Side) && taker.ID == old(taker.ID)
        && taker.Slot == old(taker.Slot)
      ensures var t := old(Opposite(taker.Side));
              var q, need := old(FlatSide(t.side, SideView(t), taker.Price)), old(taker.RemainingSize());
              && SideOk(t) && CachesOk() && StaysFresh()
              && IndexHolds(OrderIndex, t.orders) && t.orders <= old(t.orders)
              && FlatSide(t.side, SideView(t), taker.Price) == FillQueue(q, need).rest
              && Traded(FillQueue(q, need).fills, old(Trades), Trades, old(nextTradeID), nextTradeID,
                old(taker.View()), taker.View())
              && Removed(old(OrderIndex), OrderIndex,
                   old(t.orders) - t.orders + if taker.IsFilled() then {taker} else {})
              && Untouched(t.side, old(SideView(t)), SideView(t), taker.Price)
              && (!taker.IsFilled() ==> Exhausted(t, taker.Price))
              && (old(Exhausted(t, taker.Price) && !taker.IsFilled()) ==>
                   SideNow(taker, t) == old(SideNow(taker, t)) && SideView(t) == old(SideView(t)) && unchanged(taker))
              && (old(!Exhausted(t, taker.Price) && !taker.IsFilled()) ==> taker.RemainingSize() < need)
    {
      hide SideOk, SideView, Ran, FillQueue, Trie.Valid, IndexHolds, FlatSide, Traded, Removed, Exhausted, Untouched,
        Trie.CacheOk;
      var t := Opposite(taker.Side);
      ghost var fills, s0 := FillQueue(FlatSide(t.side, SideView(t), taker.Price), taker.RemainingSize()).fills,
              SideNow(taker, t);
      MatchLoop(taker, t);
      RanAmount(fills, s0, SideNow(taker, t));
      RanParts(fills, s0, SideNow(taker, t));
      assert old(t.orders) - t.orders + {} == old(t.orders) - t.orders;
      if taker.IsFilled() {
        RemovedTaker(old(OrderIndex), OrderIndex, old(t.orders) - t.orders, taker, t.orders);
        OrderIndex := OrderIndex - {taker.ID};
      }
    }

    // -------------------------------------------------------------- the whole book

    /** Two sound sides that share nothing. */
    ghost predicate Shape()
      reads buy, sell, buy.nodes.Values, sell.nodes.Values, buy.levels.Values, sell.levels.Values, buy.orders,
        sell.orders
    {
      Sides() && Pair(buy, sell)
    }

    /** The sides, the index and the cached bounds are sound, and the book is not crossed. */
    ghost predicate Sound()
      reads this`bestBidCache, this`bestAskCache, this`OrderIndex, this`nextOrderID
      reads buy, sell, buy.nodes.Values, sell.nodes.Values, buy.levels.Values, sell.levels.Values, buy.orders,
        sell.orders
    {
      && Shape() && CachesOk() && NotCrossed(SideView(buy), SideView(sell))
      && IndexExact(OrderIndex, buy.orders + sell.orders, nextOrderID)
    }

    /** The invariant of the book: the cached bid, besides, is never an emptied level. */
    ghost predicate Valid()
      reads this`bestBidCache, this`bestAskCache, bestBidCache, bestAskCache, this`OrderIndex, this`nextOrderID
      reads buy, sell, buy.nodes.Values, sell.nodes.Values, buy.levels.Values, sell.levels.Values, buy.orders,
        sell.orders
    {
      Sound() && Fresh(BUY)
    }

    /** One side of the book on values. */
    ghost function Table(side: Side): SideV
      reads buy, sell, buy.nodes.Values, sell.nodes.Values, buy.levels.Values, sell.levels.Values, buy.orders,
        sell.orders
      requires Shape()
    {
      SideView(Own(side))
    }

    /** The book, seen from one side. */
    ghost predicate SoundFrom(side: Side)
      reads this`bestBidCache, this`bestAskCache, this`OrderIndex, this`nextOrderID
      reads buy, sell, buy.nodes.Values, sell.nodes.Values, buy.levels.Values, sell.levels.Values, buy.orders,
        sell.orders
    {
      var own, t := Own(side), Opposite(side);
      && Pair(own, t) && own.CacheOk(Cache(side)) && t.CacheOk(Cache(Other(side)))
      && Uncrossed(side, SideView(own), SideView(t)) && IndexExact(OrderIndex, own.orders + t.orders, nextOrderID)
    }

    lemma SeenFrom(side: Side)
      ensures Sound() <==> Sides() && SoundFrom(side)
      ensures Shape() <==> Sides() && Pair(Own(side), Opposite(side))
      ensures CachesOk() <==> Own(side).CacheOk(Cache(side)) && Opposite(side).CacheOk(Cache(Other(side)))
      ensures Sides() ==> Own(side).side == side && Opposite(side).side == Other(side)
      ensures Own(side).orders + Opposite(side).orders == buy.orders + sell.orders && Own(Other(side)) == Opposite(side)
    {
      hide SideOk, SideView, IndexExact, NotCrossed, Trie.CacheOk;
      assert buy.orders + sell.orders == sell.orders + buy.orders;
    }

    lemma Apart()
      requires Shape()
      ensures buy != sell && buy.levels.Values !! sell.levels.Values && buy.orders !! sell.orders
      ensures buy.Valid() && sell.Valid()
    {
      PairApart(buy, sell);
    }

    /** What a taker that does not rest in the book finds. */
    lemma TakerFacts(taker: Order)
      requires Sound() && taker !in buy.orders + sell.orders && taker.ID !in OrderIndex
      ensures var own, t := Own(taker.Side), Opposite(taker.Side);
              && Sides() && Pair(own, t) && CachesOk() && own != t && own.side == taker.Side
              && taker !in own.orders && taker !in t.orders && own.orders !! t.orders && own.Valid()
              && own.levels.Values !! t.levels.Values
              && IndexHolds(OrderIndex, own.orders) && IndexHolds(OrderIndex, t.orders)
              && IndexWithin(OrderIndex, own.orders + t.orders, nextOrderID)
              && (forall id :: id in OrderIndex && OrderIndex[id] == taker ==> id == taker.ID)
              && Uncrossed(taker.Side, SideView(own), SideView(t))
              && Table(taker.Side) == SideView(own) && Table(Other(taker.Side)) == SideView(t)
    {
      hide SideOk, SideView, IndexExact, IndexHolds, IndexWithin, Uncrossed, Trie.CacheOk, Trie.Valid, Own, Opposite,
        Cache, Sound, CachesOk;
      SeenFrom(taker.Side);
      var own, t := Own(taker.Side), Opposite(taker.Side);
      PairApart(own, t);
      ExactParts(OrderIndex, own.orders, t.orders, nextOrderID);
    }

    /** A taker that does not rest in the book meets the opposite side; its own side is untouched. */
    method Match(taker: Order)
      requires Valid() && taker !in buy.orders + sell.orders && taker.ID !in OrderIndex
      modifies this`Trades, this`OrderIndex, this`nextTradeID, this`bestBidCache, this`bestAskCache, taker
      modifies Opposite(taker.Side)`orders, Opposite(taker.Side).levels.Values, Opposite(taker.Side).orders
      ensures Valid() && StaysFresh() && taker.ID !in OrderIndex
      ensures buy.orders <= old(buy.orders) && sell.orders <= old(sell.orders)
      ensures taker.View() == old(taker.View()).(filled := taker.FilledSize, partial := taker.IsPartialFill)
      ensures taker.RemainingSize() <= old(taker.RemainingSize())
      ensures VolumeAt(Own(taker.Side), taker.Price) == old(VolumeAt(Own(taker.Side), taker.Price))
      ensures Own(taker.Side).nodes == old(Own(taker.Side).nodes)
        && Own(taker.Side).levels == old(Own(taker.Side).levels)
      ensures var t, side := Opposite(old(taker.Side)), old(taker.Side);
              && Executed(t.side, old(taker.Price), old(Table(Other(side))), Table(Other(side)),
                old(SideNow(taker, t)), SideNow(taker, t))
              && Table(side) == old(Table(side))
              && (!taker.IsFilled() ==> Exhausted(t, taker.Price))
    {
      hide Trie.Valid, SideOk, SideView, FlatSide, FillQueue, Ran, Traded, Removed, Untouched, Exhausted, Trie.CacheOk,
        IndexHolds, IndexWithin, IndexExact, Uncrossed, Cache, Shape, Sound, CachesOk, Table, VolumeAt;
      TakerFacts(taker);
      var t, own := Opposite(taker.Side), Own(taker.Side);
      ghost var s0, index, t0, v0, limit := SideNow(taker, t), OrderIndex, t.orders, SideView(t), taker.Price;
      TryMatch(taker);
      assert SideOk(own);
      assert SideView(own) == old(SideView(own));
      IndexMatched(index, OrderIndex, own.orders, t0, t.orders, if taker.IsFilled() then {taker} else {}, nextOrderID);
      RanJoin(FillQueue(FlatSide(t.side, v0, limit), s0.taker.Remaining()).fills, s0, SideNow(taker, t));
      RanAmount(FillQueue(FlatSide(t.side, v0, limit), s0.taker.Remaining()).fills, s0, SideNow(taker, t));
      UncrossedAfter(taker.Side, limit, SideView(own), v0, SideView(t));
      SeenFrom(taker.Side);
      SeenTables(taker.Side);
    }

    /** `invalidateBestPricesCache`: a new best price takes over the cache of its side. */
    method InvalidateBestPricesCache(side: Side, newPrice: U64)
      requires Shape() && newPrice in Own(side).levels && Own(side).levels[newPrice].TotalVolume > 0
      requires Own(side).CacheBut(Cache(side), newPrice) && Opposite(side).CacheOk(Cache(Other(side)))
      modifies this`bestBidCache, this`bestAskCache, Own(side)`nodes, Own(side)`levels, Own(side).nodes.Values
      ensures CachesOk() && StaysFresh()
      ensures Shape() && Table(BUY) == old(Table(BUY)) && Table(SELL) == old(Table(SELL))
      ensures buy.nodes == old(buy.nodes) && sell.nodes == old(sell.nodes) && buy.levels == old(buy.levels)
        && sell.levels == old(sell.levels)
    {
      hide Trie.CacheOk, Trie.CacheBut, SideOk, SideView, Trie.Valid;
      if side == BUY {
        bestBidCache := NewBestBeside(buy, sell, bestBidCache, newPrice, bestAskCache);
      } else {
        bestAskCache := NewBestBeside(sell, buy, bestAskCache, newPrice, bestBidCache);
      }
    }

    /** An order that does not rest yet joins its side. */
    method Join(order: Order, ghost orders: set<Order>)
      requires Shape() && CachesOk()
      requires order !in buy.orders + sell.orders && order.Slot < WIDTH && !order.IsFilled()
      requires VolumeAt(Own(order.Side), order.Price) + order.RemainingSize() <= U64_MAX
      modifies this`bestBidCache, this`bestAskCache
      modifies Own(order.Side)`nodes, Own(order.Side)`levels, Own(order.Side)`orders, Own(order.Side).nodes.Values,
        Own(order.Side).levels.Values
      ensures Shape() && CachesOk() && StaysFresh() && Grown(Own(order.Side))
      ensures var t, own := Opposite(order.Side), Own(order.Side);
              && own.orders == old(own.orders) + {order} && SideView(own) == Placed(old(SideView(own)), order.View())
              && SideView(t) == old(SideView(t)) && t.orders == old(t.orders) && Kept(orders)
              && Exhausted(t, order.Price) == old(Exhausted(t, order.Price))
    {
      hide SideOk, SideView, Placed, Trie.CacheOk, Trie.CacheBut, Trie.Valid, Exhausted;
      PlaceBeside(Own(order.Side), Opposite(order.Side), order, Cache(order.Side), Cache(Other(order.Side)), orders);
      InvalidateBestPricesCache(order.Side, order.Price);
    }

    /** `determineSlot` */
    static function DetermineSlot(trader: U32, size: U64): (slot: nat)
      ensures slot == 1 <==> trader < 100
      ensures slot == 2 <==> trader >= 100 && size < 1000
      ensures trader >= 100 && size >= 1000 ==> 3 <= slot <= 14 && (trader - (slot - 3)) % 12 == 0
    {
      if trader < 100 then 1
      else if size < 1000 then 2
      else 3 + trader % 12
    }

    /** Two traders with large orders share a slot exactly when they are congruent modulo 12. */
    static lemma SlotClasses(trader: U32, size: U64, other: U32, otherSize: U64)
      requires trader >= 100 && size >= 1000 && other >= 100 && otherSize >= 1000
      ensures DetermineSlot(trader, size) == DetermineSlot(other, otherSize) <==> (trader - other) % 12 == 0
    {
    }

    /** The next order id and a fresh order with it, which the book does not know yet. */
    method NewOrder(traderID: U32, price: U64, size: U64, side: Side) returns (order: Order)
      requires Valid() && nextOrderID < U64_MAX
      modifies this`nextOrderID
      ensures Valid() && nextOrderID == old(nextOrderID) + 1 && fresh(order)
      ensures Fresh(BUY) == old(Fresh(BUY)) && Fresh(SELL) == old(Fresh(SELL))
      ensures order !in buy.orders + sell.orders && nextOrderID !in OrderIndex
      ensures order.View() == OrderV(nextOrderID, traderID, price, size, 0, side, DetermineSlot(traderID, size), false)
    {
      hide Shape, CachesOk, NotCrossed, SideOk, SideView, IndexExact;
      IndexLater(OrderIndex, buy.orders + sell.orders, nextOrderID);
      nextOrderID := NextId(nextOrderID);
      order := new Order(nextOrderID, traderID, price, size, side, DetermineSlot(traderID, size));
    }

    /** What an order that comes to rest finds. */
    lemma RestFacts(order: Order)
      requires Sound() && order !in buy.orders + sell.orders && order.ID !in OrderIndex && order.ID <= nextOrderID
      ensures var own, t := Own(order.Side), Opposite(order.Side);
              && Shape() && CachesOk() && own != t && order !in own.orders && order !in t.orders
              && (Exhausted(t, order.Price) ==> Uncrossed(order.Side, Placed(SideView(own), order.View()), SideView(t)))
              && IndexExact(OrderIndex[order.ID := order], own.orders + {order} + t.orders, nextOrderID)
              && Table(order.Side) == SideView(own) && Table(Other(order.Side)) == SideView(t)
    {
      hide SideOk, SideView, IndexExact, Uncrossed, Trie.CacheOk, Trie.Valid, Own, Opposite, Cache, Sound, CachesOk,
        Placed, Exhausted;
      SeenFrom(order.Side);
      var own, t := Own(order.Side), Opposite(order.Side);
      if Exhausted(t, order.Price) {
        ExhaustedView(t, order.Price);
        UncrossedPlaced(order.Side, SideView(own), SideView(t), order.View());
      }
      IndexJoined(OrderIndex, own.orders + t.orders, order, nextOrderID);
      assert own.orders + t.orders + {order} == own.orders + {order} + t.orders;
    }

    lemma SeenTables(side: Side)
      requires Shape()
      ensures Table(side) == SideView(Own(side)) && Table(Other(side)) == SideView(Opposite(side))
    {
      hide SideOk, SideView, Trie.Valid;
    }

    /** An open order rests, and is indexed.  If no opposite level suits it, nothing is crossed. */
    method Rest(order: Order)
      requires Sound() && order !in buy.orders + sell.orders && order.ID !in OrderIndex && order.ID <= nextOrderID
      requires order.Slot < WIDTH && !order.IsFilled()
      requires VolumeAt(Own(order.Side), order.Price) + order.RemainingSize() <= U64_MAX
      modifies this`bestBidCache, this`bestAskCache, this`OrderIndex
      modifies Own(order.Side)`nodes, Own(order.Side)`levels, Own(order.Side)`orders, Own(order.Side).nodes.Values,
        Own(order.Side).levels.Values
      ensures Shape() && CachesOk() && IndexExact(OrderIndex, buy.orders + sell.orders, nextOrderID) && StaysFresh()
      ensures Grown(Own(order.Side)) && order in Own(order.Side).orders
      ensures buy.orders <= old(buy.orders) + {order} && sell.orders <= old(sell.orders) + {order}
      ensures old(Exhausted(Opposite(order.Side), order.Price)) ==> Sound()
      ensures Table(order.Side) == Placed(old(Table(order.Side)), order.View())
      ensures Table(Other(order.Side)) == old(Table(Other(order.Side)))
      ensures OrderIndex == old(OrderIndex)[order.ID := order]
        && Opposite(order.Side).orders == old(Opposite(order.Side).orders)
      ensures Exhausted(Opposite(order.Side), order.Price) == old(Exhausted(Opposite(order.Side), order.Price))
    {
      hide Grown, SideOk, SideView, Exhausted, Trie.CacheOk, Trie.Valid, IndexExact, Uncrossed, Placed, VolumeAt, Own,
        Opposite, Cache, Shape, Sound, CachesOk, Table;
      RestFacts(order);
      ghost var all := Own(order.Side).orders + {order} + Opposite(order.Side).orders;
      Join(order, all);
      OrderIndex := OrderIndex[order.ID := order];
      SeenFrom(order.Side);
      SeenTables(order.Side);
    }

    /** SideNow without the taker's own index entry. */
    ghost function SideAfter(taker: Order, t: Trie): Snap
      reads this`Trades, this`nextTradeID, this`OrderIndex, taker, t
    {
      Snap(Trades, nextTradeID, taker.View(), OrderIndex - {taker.ID}, t.orders)
    }

    lemma NotIndexed(order: Order, t: Trie)
      requires order.ID !in OrderIndex
      ensures SideAfter(order, t) == SideNow(order, t)
    {
      assert OrderIndex - {order.ID} == OrderIndex;
    }

    lemma NewlyIndexed(order: Order, t: Trie, before: Snap, index: Index)
      requires before == Snap(Trades, nextTradeID, order.View(), index, t.orders) && order.ID !in index
      requires OrderIndex == index[order.ID := order]
      ensures SideAfter(order, t) == before
    {
      assert OrderIndex - {order.ID} == index;
    }

    /** What is left of a matched order rests. */
    method RestOpen(order: Order)
      requires Valid() && order !in buy.orders + sell.orders && order.ID !in OrderIndex && order.ID <= nextOrderID
      requires order.Slot < WIDTH && !order.IsFilled() && Exhausted(Opposite(order.Side), order.Price)
      requires VolumeAt(Own(order.Side), order.Price) + order.RemainingSize() <= U64_MAX
      modifies this`bestBidCache, this`bestAskCache, this`OrderIndex
      modifies Own(order.Side)`nodes, Own(order.Side)`levels, Own(order.Side)`orders, Own(order.Side).nodes.Values,
        Own(order.Side).levels.Values
      ensures Valid() && StaysFresh() && Grown(Own(order.Side))
      ensures buy.orders <= old(buy.orders) + {order} && sell.orders <= old(sell.orders) + {order}
      ensures Table(order.Side) == Placed(old(Table(order.Side)), order.View())
      ensures Table(Other(order.Side)) == old(Table(Other(order.Side))) && order.ID in OrderIndex
      ensures SideAfter(order, Opposite(order.Side)) == old(SideNow(order, Opposite(order.Side)))
    {
      hide Shape, IndexExact, CachesOk, SideOk, SideView, Table, Exhausted, NotCrossed, Placed, Sound, VolumeAt,
        SideAfter, Grown;
      ghost var t, index, before := Opposite(order.Side), OrderIndex, SideNow(order, Opposite(order.Side));
      Rest(order);
      NewlyIndexed(order, t, before, index);
    }

    /** Match, then rest. */
    method Submit(order: Order)
      requires Valid() && order !in buy.orders + sell.orders && order.ID !in OrderIndex && order.ID <= nextOrderID
        && order.Slot < WIDTH
      requires VolumeAt(Own(order.Side), order.Price) + order.RemainingSize() <= U64_MAX
      modifies this`Trades, this`OrderIndex, this`nextTradeID, this`bestBidCache, this`bestAskCache, order
      modifies Own(order.Side)`nodes, Own(order.Side)`levels, Own(order.Side)`orders, Own(order.Side).nodes.Values,
        Own(order.Side).levels.Values
      modifies Opposite(order.Side)`orders, Opposite(order.Side).levels.Values, Opposite(order.Side).orders
      ensures Valid() && StaysFresh() && Grown(Own(order.Side))
      ensures buy.orders <= old(buy.orders) + {order} && sell.orders <= old(sell.orders) + {order}
      ensures order.View() == old(order.View()).(filled := order.FilledSize, partial := order.IsPartialFill)
      ensures var side, t := old(order.Side), Opposite(old(order.Side));
              && Executed(t.side, old(order.Price), old(Table(Other(side))), Table(Other(side)),
                old(SideNow(order, t)), SideAfter(order, t))
              && Table(side) == (if order.IsFilled() then old(Table(side)) else Placed(old(Table(side)), order.View()))
              && (order.ID in OrderIndex <==> !order.IsFilled())
    {
      hide Shape, IndexExact, CachesOk, SideOk, SideView, Table, Executed, Exhausted, NotCrossed, Placed, Sound,
        VolumeAt, SideAfter, SideNow, Fresh, Cache;
      ghost var t := Opposite(order.Side);
      Match(order);
      if order.IsFilled() {
        NotIndexed(order, t);
      } else {
        RestOpen(order);
      }
    }

    /** `AddLimitOrder`: the order trades against the opposite side up to its price; what remains of it rests. */
    method AddLimitOrder(traderID: U32, price: U64, size: U64, side: Side) returns (order: Order)
      requires Valid() && nextOrderID < U64_MAX && VolumeAt(Own(side), price) + size <= U64_MAX
      modifies this`Trades, this`OrderIndex, this`nextTradeID, this`nextOrderID, this`bestBidCache, this`bestAskCache
      modifies Own(side)`nodes, Own(side)`levels, Own(side)`orders, Own(side).nodes.Values, Own(side).levels.Values
      modifies Opposite(side)`orders, Opposite(side).levels.Values, Opposite(side).orders
      ensures Valid() && StaysFresh() && fresh(order) && nextOrderID == old(nextOrderID) + 1 && Grown(Own(side))
      ensures buy.orders <= old(buy.orders) + {order} && sell.orders <= old(sell.orders) + {order}
      ensures var o, t := OrderV(nextOrderID, traderID, price, size, 0, side, DetermineSlot(traderID, size), false),
        Opposite(side);
              && Executed(t.side, price, old(Table(Other(side))), Table(Other(side)),
                old(Snap(Trades, nextTradeID, o, OrderIndex, t.orders)), SideAfter(order, t))
              && Table(side) == (if order.IsFilled() then old(Table(side)) else Placed(old(Table(side)), order.View()))
              && (order.ID in OrderIndex <==> !order.IsFilled())
    {
      hide Shape, IndexExact, CachesOk, SideOk, SideView, Table, Executed, NotCrossed, Placed, Sound, Fresh, VolumeAt,
        SideAfter;
      order := NewOrder(traderID, price, size, side);
      Submit(order);
    }

    /** `ExecuteMarketOrder`: the order trades at any price, and nothing of it rests. */
    method ExecuteMarketOrder(traderID: U32, size: U64, side: Side) returns (ok: bool, ghost taker: OrderV)
      requires Valid() && nextOrderID < U64_MAX
      modifies this`Trades, this`OrderIndex, this`nextTradeID, this`nextOrderID, this`bestBidCache, this`bestAskCache
      modifies Opposite(side)`orders, Opposite(side).levels.Values, Opposite(side).orders
      ensures Valid() && StaysFresh() && ok && nextOrderID == old(nextOrderID) + 1
      ensures var limit, t := if side == BUY then U64_MAX else 0, Opposite(side);
              var o := OrderV(nextOrderID, traderID, limit, size, 0, side, DetermineSlot(traderID, size), false);
              && Executed(t.side, limit, old(Table(Other(side))), Table(Other(side)),
                old(Snap(Trades, nextTradeID, o, OrderIndex, t.orders)),
                          Snap(Trades, nextTradeID, taker, OrderIndex, t.orders))
              && Table(side) == old(Table(side))
    {
      hide Shape, IndexExact, CachesOk, SideOk, SideView, Table, Executed, NotCrossed, Sound, Trie.Valid, Trie.CacheOk,
        Exhausted, Fresh, VolumeAt;
      var order := NewOrder(traderID, if side == BUY then U64_MAX else 0, size, side);
      Match(order);
      taker := order.View();
      Release(order);
      ok := true;
    }

    lemma OrderSide(order: Order)
      requires Shape() && order in buy.orders + sell.orders
      ensures order in Own(order.Side).orders && order !in Opposite(order.Side).orders
    {
      hide Trie.Valid, PriceLevel.Valid;
    }

    /** What a resting order leaves behind. */
    lemma LeaveFacts(order: Order)
      requires Sound() && order in buy.orders + sell.orders
      ensures var own, t := Own(order.Side), Opposite(order.Side);
              && Sides() && Pair(own, t) && own.CacheOk(Cache(order.Side)) && t.CacheOk(Cache(Other(order.Side)))
              && own != t && order in own.orders && order !in t.orders && UniqueIds(own.orders)
              && order.ID <= nextOrderID
              && Uncrossed(order.Side, Without(SideView(own), order.View()), SideView(t))
              && IndexExact(OrderIndex - {order.ID}, own.orders - {order} + t.orders, nextOrderID)
              && Table(order.Side) == SideView(own) && Table(Other(order.Side)) == SideView(t)
    {
      hide SideOk, SideView, IndexExact, Uncrossed, Trie.CacheOk, Trie.Valid, Without, Own, Opposite, Cache, Sound,
        CachesOk;
      SeenFrom(order.Side);
      OrderSide(order);
      var own, t := Own(order.Side), Opposite(order.Side);
      UncrossedWithout(order.Side, SideView(own), SideView(t), order.View());
      IndexRemoved(OrderIndex, own.orders + t.orders, order, nextOrderID);
      Indexed(OrderIndex, own.orders + t.orders, nextOrderID, order.ID);
      assert own.orders + t.orders - {order} == own.orders - {order} + t.orders;
    }

    lemma SeenSound(side: Side)
      requires Sides() && SoundFrom(side)
      ensures Sound() && Shape() && Table(side) == SideView(Own(side)) && Table(Other(side)) == SideView(Opposite(side))
      ensures buy.orders + sell.orders == Own(side).orders + Opposite(side).orders
    {
      hide SideOk, SideView, IndexExact, Uncrossed, Trie.CacheOk, Trie.Valid, Own, Opposite, Cache, Sound, CachesOk;
      SeenFrom(side);
    }

    /** A resting order leaves its level and the index. */
    method Withdraw(order: Order) returns (level: PriceLevel)
      requires Valid() && order in buy.orders + sell.orders
      modifies this`OrderIndex
      modifies Own(order.Side)`nodes, Own(order.Side)`levels, Own(order.Side)`orders, Own(order.Side).nodes.Values,
        Own(order.Side).levels.Values
      ensures Sound() && order !in buy.orders + sell.orders && order.View() == old(order.View())
      ensures OrderIndex == old(OrderIndex) - {order.ID} && order.ID <= nextOrderID
      ensures Table(order.Side) == Without(old(Table(order.Side)), order.View())
        && Table(Other(order.Side)) == old(Table(Other(order.Side)))
      ensures level.Price == order.Price && level.TotalVolume ==
        old(VolumeAt(Own(order.Side), order.Price)) - order.RemainingSize()
      ensures forall p :: VolumeAt(Own(order.Side), p) <= old(VolumeAt(Own(order.Side), p))
      ensures Own(order.Side).nodes == old(Own(order.Side).nodes)
        && Own(order.Side).levels == old(Own(order.Side).levels)
      ensures old(order.Price in Own(order.Side).levels) && level == old(Own(order.Side).levels[order.Price])
      ensures Opposite(order.Side).levels == old(Opposite(order.Side).levels)
        && Opposite(order.Side).orders == old(Opposite(order.Side).orders)
      ensures forall p :: Exhausted(Opposite(order.Side), p) == old(Exhausted(Opposite(order.Side), p))
      ensures Fresh(Other(order.Side)) == old(Fresh(Other(order.Side)))
      ensures old(Fresh(order.Side)) ==> (Fresh(order.Side) <==> level != Cache(order.Side) || level.TotalVolume > 0)
    {
      hide SideOk, SideView, IndexExact, Uncrossed, Trie.CacheOk, Trie.Valid, Without, VolumeAt, Own, Opposite, Cache,
        Shape, Sound, CachesOk, UniqueIds, Table, Exhausted;
      LeaveFacts(order);
      ghost var rest := Own(order.Side).orders - {order} + Opposite(order.Side).orders;
      level := WithdrawBeside(Own(order.Side), Opposite(order.Side), order, Cache(order.Side),
        Cache(Other(order.Side)), rest);
      OrderIndex := OrderIndex - {order.ID};
      SeenSound(order.Side);
    }

    /** `CancelOrder`.  The order is zeroed before its side is read for the cache, so the side reads BUY: an emptied
        ask level stays cached unless the bid cache happens to have its price. */
    method CancelOrder(orderID: U64) returns (ok: bool)
      requires Valid()
      modifies this`OrderIndex, this`bestBidCache, this`bestAskCache
      modifies buy, sell, buy.nodes.Values, sell.nodes.Values, buy.levels.Values, sell.levels.Values, buy.orders,
        sell.orders
      ensures Valid() && (ok <==> orderID in old(OrderIndex)) && OrderIndex == old(OrderIndex) - {orderID}
      ensures !ok ==>
        Table(BUY) == old(Table(BUY)) && Table(SELL) == old(Table(SELL)) && (Fresh(SELL) <==> old(Fresh(SELL)))
      ensures ok ==> var o := old(OrderIndex[orderID].View());
                Table(o.side) == Without(old(Table(o.side)), o) && Table(Other(o.side)) == old(Table(Other(o.side)))
      ensures ok && old(Fresh(SELL)) ==> (Fresh(SELL) <==> !old(LastAtCachedAsk(orderID)))
    {
      hide Sound, Without, Table, VolumeAt, LastAtCachedAsk;
      if orderID !in OrderIndex {
        return false;
      }
      IndexedId(orderID);
      CancelResting(OrderIndex[orderID]);
      ok := true;
    }

    method CancelResting(order: Order)
      requires Valid() && order in buy.orders + sell.orders && order.ID in OrderIndex && OrderIndex[order.ID] == order
      modifies this`OrderIndex, this`bestBidCache, this`bestAskCache, order
      modifies buy, sell, buy.nodes.Values, sell.nodes.Values, buy.levels.Values, sell.levels.Values
      ensures Valid() && OrderIndex == old(OrderIndex) - {old(order.ID)}
      ensures var o := old(order.View());
                Table(o.side) == Without(old(Table(o.side)), o) && Table(Other(o.side)) == old(Table(Other(o.side)))
      ensures old(Fresh(SELL)) ==> (Fresh(SELL) <==> !old(LastAtCachedAsk(order.ID)))
    {
      hide Sound, Without, Table, VolumeAt, LastAtCachedAsk, Shape, Fresh, Exhausted;
      CancelFacts(order);
      var level := Withdraw(order);
      Release(order);
      if level.TotalVolume == 0 {
        if order.Side == BUY && bestBidCache != null && bestBidCache.Price == level.Price {
          Refresh();
        }
      }
    }

    /** The withdrawn order goes back to the pool. */
    method Release(order: Order)
      requires Sound() && order !in buy.orders + sell.orders
      modifies order
      ensures order.Side == BUY && Sound() && Table(BUY) == old(Table(BUY)) && Table(SELL) == old(Table(SELL))
      ensures Fresh(BUY) == old(Fresh(BUY)) && Fresh(SELL) == old(Fresh(SELL))
    {
      hide Shape, CachesOk, NotCrossed, SideView, IndexExact;
      order.Clear();
    }

    method Refresh()
      requires Sound()
      modifies this`bestBidCache, this`bestAskCache
      ensures Valid() && Fresh(SELL) && Table(BUY) == old(Table(BUY)) && Table(SELL) == old(Table(SELL))
    {
      hide Shape, CachesOk, NotCrossed, SideView, IndexExact, Trie.Valid, Trie.CacheOk, SideOk, Table;
      SoundShape();
      UpdateBestPricesCache();
    }

    /** What cancelling does to the ask cache is decided before the call. */
    lemma CancelFacts(order: Order)
      requires Valid() && order in buy.orders + sell.orders && order.ID in OrderIndex && OrderIndex[order.ID] == order
      ensures order.Price in Own(order.Side).levels
      ensures order.Side == SELL && bestBidCache != null ==> bestBidCache.Price < order.Price
      ensures LastAtCachedAsk(order.ID) <==> order.Side == SELL && bestAskCache == sell.levels[order.Price]
                                             && VolumeAt(sell, order.Price) == order.RemainingSize()
    {
      hide Trie.Valid, PriceLevel.Valid, IndexExact, Flat;
      OrderSide(order);
      LevelOfOrder(Own(order.Side), order);
      Apart();
      buy.LevelsKnown();
      sell.LevelsKnown();
      if order.Side == SELL && bestBidCache != null {
        sell.levels[order.Price].VolumeFacts();
        bestBidCache.VolumeFacts();
        assert Flat(SideView(sell)[order.Price]) != [];
        assert Flat(SideView(buy)[bestBidCache.Price]) != [];
      }
    }

    /** The order is the last one at the level that the ask cache holds. */
    ghost predicate LastAtCachedAsk(orderID: U64)
      reads this`OrderIndex, this`bestAskCache, bestAskCache, OrderIndex.Values
    {
      && orderID in OrderIndex && OrderIndex[orderID].Side == SELL
      && bestAskCache != null && bestAskCache.Price == OrderIndex[orderID].Price
      && bestAskCache.TotalVolume == OrderIndex[orderID].RemainingSize()
    }

    lemma IndexedId(orderID: U64)
      requires Sound() && orderID in OrderIndex
      ensures OrderIndex[orderID].ID == orderID && OrderIndex[orderID] in buy.orders + sell.orders
        && !OrderIndex[orderID].IsFilled()
    {
      hide CachesOk, NotCrossed, SideView, SideOk;
      OrderSide(OrderIndex[orderID]);
      LevelOfOrder(Own(OrderIndex[orderID].Side), OrderIndex[orderID]);
      Indexed(OrderIndex, buy.orders + sell.orders, nextOrderID, orderID);
    }

    lemma SoundShape()
      requires Sound()
      ensures buy.Valid() && sell.Valid() && Shape() && CachesOk()
    {
      hide CachesOk, NotCrossed, SideView, IndexExact;
      Apart();
    }

    // -------------------------------------------------------------- changing an order

    /** The order with a new price, size and slot. */
    static function Changed(o: OrderV, price: U64, size: U64): OrderV {
      o.(price := price, size := size, slot := DetermineSlot(o.trader, size))
    }

    /** What a resting order finds when it is matched. */
    lemma RestingFacts(order: Order)
      requires Shape() && CachesOk() && IndexExact(OrderIndex, buy.orders + sell.orders, nextOrderID)
      requires order in Own(order.Side).orders
      ensures var own, t := Own(order.Side), Opposite(order.Side);
              && Sides() && Pair(own, t) && own != t && own.side == order.Side && own.Valid()
              && order !in t.orders && own.orders !! t.orders && own.levels.Values !! t.levels.Values
              && SideOk(own) && SideOk(t) && own.nodes.Values !! t.nodes.Values
              && IndexHolds(OrderIndex, own.orders) && IndexHolds(OrderIndex, t.orders)
              && IndexWithin(OrderIndex, own.orders + t.orders, nextOrderID)
              && order.ID in OrderIndex && OrderIndex[order.ID] == order && !order.IsFilled()
              && (forall id :: id in OrderIndex && OrderIndex[id] == order ==> id == order.ID)
              && Table(order.Side) == SideView(own) && Table(Other(order.Side)) == SideView(t)
              && (Sound() ==> Uncrossed(order.Side, SideView(own), SideView(t)))
              && order.Price in own.levels && order.Slot < WIDTH == |own.levels[order.Price].Slots|
      ensures var own := Own(order.Side);
              var slot := own.levels[order.Price].Slots[order.Slot];
              && order in slot.Orders && slot.Volume == Sum(QueueOf(slot.Orders))
              && forall o :: o in slot.Orders ==> o in own.orders
    {
      hide SideOk, SideView, IndexExact, IndexHolds, IndexWithin, Trie.CacheOk, Trie.Valid, Own, Opposite, Cache,
        CachesOk, Sum, QueueOf, PriceLevel.Valid;
      SeenFrom(order.Side);
      var own, t := Own(order.Side), Opposite(order.Side);
      PairApart(own, t);
      ExactParts(OrderIndex, own.orders, t.orders, nextOrderID);
      IndexedOrder(OrderIndex, buy.orders + sell.orders, nextOrderID, order);
      SlotOfSide(own, order);
      LevelOfOrder(own, order);
    }

    lemma SeenParts(side: Side)
      requires Sides() && SideOk(Own(side)) && SideOk(Opposite(side))
      requires Own(side).nodes.Values !! Opposite(side).nodes.Values && CachesOk()
      requires IndexExact(OrderIndex, Own(side).orders + Opposite(side).orders, nextOrderID)
      ensures Shape() && IndexExact(OrderIndex, buy.orders + sell.orders, nextOrderID)
      ensures Table(side) == SideView(Own(side)) && Table(Other(side)) == SideView(Opposite(side))
      ensures Sound() <==> Uncrossed(side, SideView(Own(side)), SideView(Opposite(side)))
    {
      hide SideOk, SideView, IndexExact, Uncrossed, Trie.CacheOk, Trie.Valid, Own, Opposite, Cache, CachesOk, Sound;
      SeenFrom(side);
    }

    /** A resting order is matched.  Without an eligible level nothing happens.  Otherwise its own side breaks: the
        taker is filled where it rests, and the volumes there are not reduced. */
    method MatchResting(order: Order)
      requires Shape() && CachesOk() && IndexExact(OrderIndex, buy.orders + sell.orders, nextOrderID)
      requires order in Own(order.Side).orders
      modifies this`Trades, this`OrderIndex, this`nextTradeID, this`bestBidCache, this`bestAskCache, order
      modifies Opposite(order.Side)`orders, Opposite(order.Side).levels.Values, Opposite(order.Side).orders
      ensures if old(Exhausted(Opposite(order.Side), order.Price))
              then
                && Shape() && CachesOk() && StaysFresh() && OrderIndex == old(OrderIndex) && Trades == old(Trades)
                && IndexExact(OrderIndex, buy.orders + sell.orders, nextOrderID) && order.View() == old(order.View())
                && Table(BUY) == old(Table(BUY)) && Table(SELL) == old(Table(SELL)) && (old(Sound()) ==> Sound())
              else !SideOk(old(Own(order.Side)))
    {
      hide Trie.Valid, SideOk, SideView, Exhausted, Trie.CacheOk, FlatSide, FillQueue, Untouched, Traded, Removed,
        IndexHolds, IndexExact, IndexWithin, QueueOf, Sum, Shape, CachesOk, Table, Cache, Sound, Uncrossed, StaysFresh,
        Fresh, Order.View, Pair;
      RestingFacts(order);
      var t, own := Opposite(order.Side), Own(order.Side);
      ghost var slot := own.levels[order.Price].Slots[order.Slot];
      ghost var q := QueueOf(slot.Orders);
      TryMatch(order);
      if old(Exhausted(t, order.Price)) {
        assert SideOk(own);
        assert SideView(own) == old(SideView(own));
        IndexBoth(OrderIndex, own.orders, t.orders, nextOrderID);
        SeenParts(order.Side);
      } else {
        assert forall o :: o in slot.Orders && o != order ==> o.RemainingSize() == old(o.RemainingSize());
        OutOfStep(own, order, slot, q);
      }
    }

    /** The side after one of its orders changed: it is gone, keeps its place, or joins the back of its new queue. */
    static function Modified(v: SideV, o: OrderV, o': OrderV): SideV {
      if o'.Remaining() == 0 then Without(v, o)
      else if o'.price == o.price && o'.slot == o.slot then Replaced(v, o')
      else Placed(Without(v, o), o')
    }

    /** The order leaves its level, and the caches are refreshed if that was the cached best level and is empty now. */
    method Detach(order: Order)
      requires Valid() && order in buy.orders + sell.orders
      modifies this`OrderIndex, this`bestBidCache, this`bestAskCache
      modifies Own(order.Side)`nodes, Own(order.Side)`levels, Own(order.Side)`orders, Own(order.Side).nodes.Values,
        Own(order.Side).levels.Values
      ensures Valid() && StaysFresh() && order !in buy.orders + sell.orders && order.View() == old(order.View())
      ensures OrderIndex == old(OrderIndex) - {order.ID} && order.ID <= nextOrderID
      ensures Table(order.Side) == Without(old(Table(order.Side)), order.View())
        && Table(Other(order.Side)) == old(Table(Other(order.Side)))
      ensures forall p :: VolumeAt(Own(order.Side), p) <= old(VolumeAt(Own(order.Side), p))
      ensures Own(order.Side).nodes == old(Own(order.Side).nodes)
        && Own(order.Side).levels == old(Own(order.Side).levels)
      ensures Opposite(order.Side).levels == old(Opposite(order.Side).levels)
        && Opposite(order.Side).orders == old(Opposite(order.Side).orders)
      ensures forall p :: Exhausted(Opposite(order.Side), p) == old(Exhausted(Opposite(order.Side), p))
    {
      hide Sound, Without, Table, VolumeAt, Exhausted, Order.View, Trie.Valid, Trie.CacheOk;
      var cached := Cache(order.Side);
      var oldLevelWasBest := cached != null && cached.Price == order.Price;
      var level := Withdraw(order);
      if level.TotalVolume == 0 && oldLevelWasBest {
        Refresh();
      }
    }

    /** A withdrawn order gets its new price, size and slot. */
    method AmendLoose(order: Order, newPrice: U64, newSize: U64)
      requires Valid() && order !in buy.orders + sell.orders
      modifies order`Price, order`Size, order`Slot
      ensures Valid() && order.View() == Changed(old(order.View()), newPrice, newSize)
      ensures Table(BUY) == old(Table(BUY)) && Table(SELL) == old(Table(SELL))
      ensures Fresh(BUY) == old(Fresh(BUY)) && Fresh(SELL) == old(Fresh(SELL))
    {
      hide Shape, CachesOk, NotCrossed, SideView, IndexExact;
      order.Amend(newPrice, newSize, DetermineSlot(order.TraderID, newSize));
    }

    /** A withdrawn order rests again, and is matched there. */
    method Reattach(order: Order)
      requires Valid() && order !in buy.orders + sell.orders && order.ID !in OrderIndex && order.ID <= nextOrderID
      requires order.Slot < WIDTH && !order.IsFilled()
      requires VolumeAt(Own(order.Side), order.Price) + order.RemainingSize() <= U64_MAX
      modifies this`Trades, this`OrderIndex, this`nextTradeID, this`bestBidCache, this`bestAskCache, order
      modifies Own(order.Side)`nodes, Own(order.Side)`levels, Own(order.Side)`orders, Own(order.Side).nodes.Values,
        Own(order.Side).levels.Values
      modifies Opposite(order.Side)`orders, Opposite(order.Side).levels.Values, Opposite(order.Side).orders
      ensures var side, t := old(order.Side), old(Opposite(order.Side));
              if old(Exhausted(t, order.Price))
              then
                && Valid() && StaysFresh() && Trades == old(Trades) && OrderIndex == old(OrderIndex)[order.ID := order]
                && order.View() == old(order.View()) && Table(Other(side)) == old(Table(Other(side)))
                && Table(side) == Placed(old(Table(side)), order.View())
              else !SideOk(old(Own(order.Side)))
    {
      hide Shape, CachesOk, Table, VolumeAt, Trie.Valid, Trie.CacheOk, Exhausted, Placed, NotCrossed, IndexExact,
        SideOk, SideView;
      Rest(order);
      MatchResting(order);
    }

    /** The order leaves its level and gets its new price, size and slot. */
    method Pull(order: Order, newPrice: U64, newSize: U64)
      requires Valid() && order in buy.orders + sell.orders
      modifies this`OrderIndex, this`bestBidCache, this`bestAskCache, order
      modifies Own(order.Side)`nodes, Own(order.Side)`levels, Own(order.Side)`orders, Own(order.Side).nodes.Values,
        Own(order.Side).levels.Values
      ensures Valid() && StaysFresh() && order !in buy.orders + sell.orders
      ensures order.View() == Changed(old(order.View()), newPrice, newSize)
      ensures OrderIndex == old(OrderIndex) - {order.ID} && order.ID <= nextOrderID
      ensures Table(order.Side) == Without(old(Table(order.Side)), old(order.View()))
        && Table(Other(order.Side)) == old(Table(Other(order.Side)))
      ensures VolumeAt(Own(order.Side), newPrice) <= old(VolumeAt(Own(order.Side), newPrice))
      ensures Own(order.Side).nodes == old(Own(order.Side).nodes)
        && Own(order.Side).levels == old(Own(order.Side).levels)
      ensures Exhausted(Opposite(order.Side), newPrice) == old(Exhausted(Opposite(order.Side), newPrice))
      ensures Opposite(order.Side).levels == old(Opposite(order.Side).levels)
        && Opposite(order.Side).orders == old(Opposite(order.Side).orders)
    {
      hide Sound, Without, Table, VolumeAt, Exhausted, Shape, Fresh;
      Detach(order);
      AmendLoose(order, newPrice, newSize);
    }

    /** The second case of `ModifyOrder`: a new price. */
    method Reprice(order: Order, newPrice: U64, newSize: U64)
      requires Valid() && order in buy.orders + sell.orders && order.ID in OrderIndex && OrderIndex[order.ID] == order
      requires VolumeAt(Own(order.Side), newPrice) + newSize <= U64_MAX
      modifies this`Trades, this`OrderIndex, this`nextTradeID, this`bestBidCache, this`bestAskCache, order
      modifies buy, sell, buy.nodes.Values, sell.nodes.Values, buy.levels.Values, sell.levels.Values, buy.orders,
        sell.orders
      ensures var o, o', t := old(order.View()), Changed(old(order.View()), newPrice, newSize),
        Opposite(old(order.Side));
              if o'.Remaining() == 0 || old(Exhausted(t, newPrice))
              then
                && Valid() && StaysFresh() && Trades == old(Trades) && Table(Other(o.side)) == old(Table(Other(o.side)))
                && Table(o.side) ==
                   (if o'.Remaining() == 0 then Without(old(Table(o.side)), o)
                    else Placed(Without(old(Table(o.side)), o), o'))
                && OrderIndex == if o'.Remaining() == 0 then old(OrderIndex) - {o.id} else old(OrderIndex)
              else !SideOk(old(Own(order.Side)))
    {
      hide Sound, Without, Table, VolumeAt, Trie.Valid, Trie.CacheOk, Exhausted, Placed, Shape, CachesOk, SideOk;
      Pull(order, newPrice, newSize);
      ghost var rest := OrderIndex;
      assert old(OrderIndex) == rest[order.ID := order];
      if order.RemainingSize() == 0 {
        Release(order);
      } else {
        Reattach(order);
      }
    }

    /** What a resting order that changes at its price leaves alone. */
    lemma ResizeFacts(order: Order, newSize: U64)
      requires Sound() && order in buy.orders + sell.orders && order.FilledSize < newSize
      ensures var own, t, o := Own(order.Side), Opposite(order.Side), order.View();
              && Sides() && Pair(own, t) && own.CacheOk(Cache(order.Side)) && t.CacheOk(Cache(Other(order.Side)))
              && own != t && order in own.orders && order !in t.orders && UniqueIds(own.orders)
              && order.ID <= nextOrderID && order.ID in OrderIndex && OrderIndex[order.ID] == order
              && Uncrossed(order.Side, Modified(SideView(own), o, Changed(o, o.price, newSize)), SideView(t))
              && IndexExact(OrderIndex - {order.ID}, own.orders - {order} + t.orders, nextOrderID)
              && Table(order.Side) == SideView(own) && Table(Other(order.Side)) == SideView(t)
    {
      hide SideOk, SideView, IndexExact, Uncrossed, Trie.CacheOk, Trie.Valid, Without, Own, Opposite, Cache, Sound,
        CachesOk, Placed, Replaced;
      LeaveFacts(order);
      SeenFrom(order.Side);
      var own, t, o := Own(order.Side), Opposite(order.Side), order.View();
      OccupiedBy(own, order);
      ChangedAt(SideView(own), o, Changed(o, o.price, newSize));
      UncrossedAt(order.Side, SideView(own), SideView(t), o.price,
        Modified(SideView(own), o, Changed(o, o.price, newSize)));
      IndexRemoved(OrderIndex, own.orders + t.orders, order, nextOrderID);
    }

    lemma ModifiedOpen(v: SideV, o: OrderV, newSize: U64)
      requires o.filled < newSize
      ensures var o' := Changed(o, o.price, newSize);
              Modified(v, o, o') == if o'.slot == o.slot then Replaced(v, o') else Placed(Without(v, o), o')
    {
      hide Replaced, Placed, Without;
    }

    /** A resting order keeps its price and an open remainder. */
    method ResizeOpen(order: Order, newSize: U64)
      requires Valid() && order in buy.orders + sell.orders
      requires order.FilledSize < newSize && VolumeAt(Own(order.Side), order.Price) + newSize <= U64_MAX
      modifies order
      modifies Own(order.Side)`nodes, Own(order.Side)`levels, Own(order.Side)`orders, Own(order.Side).nodes.Values,
        Own(order.Side).levels.Values
      ensures Valid() && StaysFresh() && order.View() == Changed(old(order.View()), old(order.Price), newSize)
      ensures Table(order.Side) == Modified(old(Table(order.Side)), old(order.View()), order.View())
      ensures Table(Other(order.Side)) == old(Table(Other(order.Side)))
    {
      hide SideOk, SideView, IndexExact, Uncrossed, Trie.CacheOk, Trie.Valid, VolumeAt, Own, Opposite, Cache, Shape,
        Sound, CachesOk, UniqueIds, Table, Modified, Placed, Without, Replaced;
      ResizeFacts(order, newSize);
      var side := order.Side;
      ghost var index := OrderIndex - {order.ID};
      ghost var rest := Own(side).orders - {order} + Opposite(side).orders;
      ModifiedOpen(SideView(Own(side)), order.View(), newSize);
      var newSlot := DetermineSlot(order.TraderID, newSize);
      if newSlot != order.Slot {
        MoveBeside(Own(side), Opposite(side), order, newSize, newSlot, Cache(side), Cache(Other(side)), rest);
      } else {
        ResizeBeside(Own(side), Opposite(side), order, newSize, Cache(side), Cache(Other(side)), rest);
      }
      IndexJoined(index, rest, order, nextOrderID);
      assert index[order.ID := order] == OrderIndex;
      assert Own(side).orders + Opposite(side).orders == rest + {order};
      SeenSound(side);
    }

    /** The first case of `ModifyOrder`: only a new size. */
    method Resize(order: Order, newSize: U64)
      requires Valid() && order in buy.orders + sell.orders && order.ID in OrderIndex && OrderIndex[order.ID] == order
      requires VolumeAt(Own(order.Side), order.Price) + newSize <= U64_MAX
      modifies this`OrderIndex, this`bestBidCache, this`bestAskCache, order
      modifies buy, sell, buy.nodes.Values, sell.nodes.Values, buy.levels.Values, sell.levels.Values
      ensures var o, o' := old(order.View()), Changed(old(order.View()), old(order.Price), newSize);
              && Valid() && StaysFresh() && Table(Other(o.side)) == old(Table(Other(o.side)))
              && Table(o.side) == Modified(old(Table(o.side)), o, o')
              && OrderIndex == if o'.Remaining() == 0 then old(OrderIndex) - {o.id} else old(OrderIndex)
    {
      hide Sound, Without, Table, VolumeAt, Trie.Valid, Trie.CacheOk, Placed, Shape, CachesOk, SideOk, Replaced;
      if newSize <= order.FilledSize {
        Pull(order, order.Price, newSize);
        Release(order);
      } else {
        ResizeOpen(order, newSize);
      }
    }

    /** Would the order, at the new price and size, still be open and meet an opposite level with volume? */
    ghost predicate Crosses(o: OrderV, newPrice: U64, newSize: U64)
      reads buy, sell, buy.levels.Values, sell.levels.Values
    {
      newPrice != o.price && o.filled < newSize && !Exhausted(Opposite(o.side), newPrice)
    }

    /** `ModifyOrder`.  The invariant survives exactly when the new price does not cross. */
    method ModifyOrder(orderID: U64, newPrice: Option<U64>, newSize: Option<U64>) returns (ok: bool)
      requires Valid()
      requires orderID in OrderIndex ==>
                 var o := OrderIndex[orderID].View();
                 var price, size := newPrice.GetOr(o.price), newSize.GetOr(o.size);
                 (price != o.price || size != o.size) ==> VolumeAt(Own(o.side), price) + size <= U64_MAX
      modifies this`Trades, this`OrderIndex, this`nextTradeID, this`bestBidCache, this`bestAskCache
      modifies buy, sell, buy.nodes.Values, sell.nodes.Values, buy.levels.Values, sell.levels.Values, buy.orders,
        sell.orders
      ensures ok <==> orderID in old(OrderIndex)
      ensures !ok ==>
        Valid() && StaysFresh() && OrderIndex == old(OrderIndex) && Table(BUY) == old(Table(BUY))
        && Table(SELL) == old(Table(SELL))
      ensures ok ==>
                var o := old(OrderIndex[orderID].View());
                var price, size := newPrice.GetOr(o.price), newSize.GetOr(o.size);
                var o' := if price == o.price && size == o.size then o else Changed(o, price, size);
                && (Valid() <==> !old(Crosses(o, price, size)))
                && (Valid() ==>
                      && StaysFresh() && Trades == old(Trades)
                      && Table(o.side) == (if o' == o then old(Table(o.side)) else Modified(old(Table(o.side)), o, o'))
                      && Table(Other(o.side)) == old(Table(Other(o.side)))
                      && OrderIndex == if o'.Remaining() == 0 then old(OrderIndex) - {orderID} else old(OrderIndex))
    {
      hide Sound, Without, Table, VolumeAt, Trie.Valid, Trie.CacheOk, Placed, Shape, CachesOk, SideOk, Replaced,
        Exhausted;
      if orderID !in OrderIndex {
        return false;
      }
      var order := OrderIndex[orderID];
      IndexedId(orderID);
      var priceChanged := newPrice.Some? && newPrice.value != order.Price;
      var sizeChanged := newSize.Some? && newSize.value != order.Size;
      if priceChanged {
        Reprice(order, newPrice.value, if sizeChanged then newSize.value else order.Size);
      } else if sizeChanged {
        Resize(order, newSize.value);
      }
      BrokenBook();
      ok := true;
    }

    lemma BrokenBook()
      ensures Sound() ==> SideOk(buy) && SideOk(sell)
    {
      hide SideOk, CachesOk, NotCrossed, SideView, IndexExact;
    }

    // -------------------------------------------------------------- the best prices

    function GetBestBid(): U64
      reads this`bestBidCache, bestBidCache
    {
      if bestBidCache != null && bestBidCache.TotalVolume > 0 then bestBidCache.Price else 0
    }

    function GetBestAsk(): U64
      reads this`bestAskCache, bestAskCache
    {
      if bestAskCache != null && bestAskCache.TotalVolume > 0 then bestAskCache.Price else 0
    }

    /** The best bid is always right. */
    lemma BestBidExact()
      requires Valid()
      ensures GetBestBid() == BestPrice(BUY, Table(BUY))
    {
      hide Trie.Valid, SideView, IndexExact, NotCrossed;
      BestCached(buy, bestBidCache);
    }

    /** The best ask is right exactly when the cached ask still has volume or no ask has any. */
    lemma BestAskExact()
      requires Valid()
      ensures GetBestAsk() == BestPrice(SELL, Table(SELL)) <==> Fresh(SELL) || Occupied(Table(SELL)) == {}
    {
      hide Trie.Valid, SideView, IndexExact, NotCrossed;
      BestCached(sell, bestAskCache);
    }
  }

  // ---------------------------------------------------------------- a stale best ask

  /** A level that holds one order. */
  function Alone(o: OrderV): LevelV
    requires o.slot < WIDTH
  {
    EMPTY_LEVEL[o.slot := [o]]
  }

  lemma AloneFlat(o: OrderV)
    requires o.slot < WIDTH
    ensures Flat(Alone(o)) == [o] && Sum([o]) == o.Remaining() && Flat(EMPTY_LEVEL) == []
  {
    AloneTo(o, WIDTH);
    FlatNothing(EMPTY_LEVEL);
    assert Alone(o)[..WIDTH] == Alone(o);
    assert [o][1..] == [];
  }

  lemma {:induction false} AloneTo(o: OrderV, s: nat)
    requires s <= WIDTH && o.slot < WIDTH
    ensures FlatTo(Alone(o)[..s]) == if s <= o.slot then [] else [o]
  {
    hide Alone;
    AloneAt(o, if s > 0 then s - 1 else 0);
    if s > 0 {
      AloneTo(o, s - 1);
      FlatOne(Alone(o), s - 1);
    }
  }

  lemma AloneAt(o: OrderV, s: nat)
    requires s < WIDTH && o.slot < WIDTH
    ensures |Alone(o)| == WIDTH && Alone(o)[s] == if s == o.slot then [o] else []
  {
  }

  const NEAR := OrderV(1, 1, 10, 5, 0, SELL, 1, false)
  const FAR := OrderV(2, 1, 20, 5, 0, SELL, 1, false)

  const ASK: SideV := map[10 := Alone(NEAR)]
  const ASKS: SideV := map[10 := Alone(NEAR), 20 := Alone(FAR)]
  const FAR_ASK: SideV := map[10 := EMPTY_LEVEL, 20 := Alone(FAR)]

  lemma AskTables()
    ensures Placed(map[], NEAR) == ASK && Placed(ASK, FAR) == ASKS && Without(ASKS, NEAR) == FAR_ASK
  {
    assert EMPTY_LEVEL[1] == [] && EMPTY_LEVEL[1] + [NEAR] == [NEAR] && EMPTY_LEVEL[1] + [FAR] == [FAR];
    assert DropId([NEAR], 1) == [];
    assert Alone(NEAR)[1 := []] == EMPTY_LEVEL;
  }

  lemma AskVolumes()
    ensures Occupied(FAR_ASK) == {20} && Occupied(ASKS) == {10, 20}
    ensures Sum(Flat(Alone(NEAR))) == 5 && Sum(Flat(LevelAt(ASK, 20))) == 0
  {
    hide Flat, Sum;
    AloneFlat(NEAR);
    AloneFlat(FAR);
    EmptyFlat();
  }

  lemma NobodyBids(book: OrderBook)
    requires book.Valid() && book.Table(BUY) == map[]
    ensures book.buy.orders == {}
  {
    hide Trie.Valid, NotCrossed, IndexExact, PriceLevel.Valid;
    if o :| o in book.buy.orders {
      OrderSeen(book.buy, o);
    }
  }

  /** The first order of an empty book has nobody to meet. */
  lemma FirstRests(book: OrderBook, near: Order)
    requires book.Valid()
    requires Executed(book.buy.side, 10, map[], book.Table(BUY), Snap([], 0, NEAR, map[], {}),
      book.SideAfter(near, book.buy))
    requires book.Table(SELL) == if near.IsFilled() then map[] else Placed(map[], near.View())
    requires near.ID in book.OrderIndex <==> !near.IsFilled()
    ensures book.Table(BUY) == map[] && book.Table(SELL) == ASK && book.OrderIndex.Keys == {1} && book.buy.orders == {}
  {
    hide OrderBook.Sound, OrderBook.Shape, Executed, Placed, SideOk, SideView, OrderBook.Table;
    book.SoundShape();
    ExecutedIdle(book.buy.side, 10, map[], book.Table(BUY), Snap([], 0, NEAR, map[], {}),
      book.SideAfter(near, book.buy));
    AskTables();
    NobodyBids(book);
    assert near.ID == NEAR.id == 1;
    assert (book.OrderIndex - {1}).Keys == {};
    assert book.OrderIndex.Keys == {1};
  }

  /** A first order in an empty book rests. */
  method FirstAsk() returns (book: OrderBook)
    ensures fresh(book) && NewSide(book.buy) && NewSide(book.sell)
    ensures book.Valid() && book.Fresh(SELL) && book.nextOrderID == 1
    ensures book.Table(BUY) == map[] && book.Table(SELL) == ASK && book.OrderIndex.Keys == {1} && book.buy.orders == {}
  {
    hide OrderBook.Shape, SideOk, SideView, Trie.Valid, Trie.CacheOk, Executed, Placed, Without, OrderBook.Sound,
      OrderBook.Fresh, OrderBook.Table, OrderBook.SideAfter, VolumeAt;
    book := new OrderBook();
    book.SoundShape();
    NoAskYet(book);
    var near := book.AddLimitOrder(1, 10, 5, SELL);
    book.SoundShape();
    FirstRests(book, near);
  }

  lemma NoAskYet(book: OrderBook)
    requires book.sell.levels == map[] && book.sell.orders == {} && book.buy.levels == map[] && book.buy.orders == {}
    ensures VolumeAt(book.sell, 10) == 0
  {
  }

  /** The order at 10 is the last one at the level that the ask cache holds. */
  lemma NearIsLast(book: OrderBook)
    requires book.Valid() && book.Fresh(SELL) && 1 in book.OrderIndex
    requires book.Table(BUY) == map[] && book.Table(SELL) == ASKS
    ensures book.LastAtCachedAsk(1) && book.OrderIndex[1].View() == NEAR
  {
    hide SideView, Trie.Valid, Flat, PriceLevel.Valid, NotCrossed, IndexExact, Sum;
    var order := book.OrderIndex[1];
    book.IndexedId(1);
    if order in book.buy.orders {
      OrderSeen(book.buy, order);
    }
    OrderSeen(book.sell, order);
    AskVolumes();
    book.BestAskExact();
    assert Best(SELL, {10, 20}) == 10 by {
      assert IsBest(SELL, {10, 20}, Best(SELL, {10, 20}));
    }
    VolumeSeen(book.sell, 10);
  }

  /** A second ask rests behind the first. */
  lemma FarRests(book: OrderBook, far: Order, before: Snap)
    requires book.Valid() && before.taker == FAR && before.resting == {} && 1 in before.index
    requires Executed(book.buy.side, 20, map[], book.Table(BUY), before, book.SideAfter(far, book.buy))
    requires book.Table(SELL) == if far.IsFilled() then ASK else Placed(ASK, far.View())
    ensures book.Table(BUY) == map[] && book.Table(SELL) == ASKS && 1 in book.OrderIndex
  {
    hide OrderBook.Sound, OrderBook.Shape, Executed, Placed, SideOk, SideView, OrderBook.Table;
    book.SoundShape();
    ExecutedIdle(book.buy.side, 20, map[], book.Table(BUY), before, book.SideAfter(far, book.buy));
    AskTables();
    assert 1 in (book.OrderIndex - {far.ID}).Keys;
  }

  /** An emptied cached ask level hides the ask at 20. */
  lemma StaleBest(book: OrderBook)
    requires book.Valid() && !book.Fresh(SELL) && book.Table(SELL) == FAR_ASK
    ensures book.GetBestAsk() == 0 && BestPrice(SELL, book.Table(SELL)) == 20
  {
    hide OrderBook.Shape, OrderBook.Sound, BestPrice;
    book.SoundShape();
    AskVolumes();
    OneOccupied(book.Table(SELL), 20);
  }

  /** Asks at 10 and 20, and the one at 10 is cancelled: the ask at 20 is still there, and `GetBestAsk` says 0. */
  method StaleAsk() returns (book: OrderBook)
    ensures book.Valid() && book.GetBestAsk() == 0 && BestPrice(SELL, book.Table(SELL)) == 20
  {
    hide OrderBook.Shape, OrderBook.Sound, OrderBook.Fresh, OrderBook.Table, OrderBook.SideAfter, Executed, Placed,
      Without, VolumeAt, BestPrice, OrderBook.LastAtCachedAsk, OrderBook.GetBestAsk, OrderBook.CachesOk, Trie.Valid;
    book := FirstAsk();
    book.SoundShape();
    NoVolumeYet(book);
    ghost var before := Snap(book.Trades, book.nextTradeID, FAR, book.OrderIndex, book.buy.orders);
    var far := book.AddLimitOrder(1, 20, 5, SELL);
    book.SoundShape();
    FarRests(book, far, before);
    NearIsLast(book);
    AskTables();
    var ok := book.CancelOrder(1);
    book.SoundShape();
    StaleBest(book);
  }

  lemma NoVolumeYet(book: OrderBook)
    requires book.Valid() && book.Table(SELL) == ASK && book.Table(BUY) == map[]
    ensures VolumeAt(book.sell, 20) == 0 && VolumeAt(book.buy, 5) == 0
  {
    hide Trie.Valid, SideView, NotCrossed, IndexExact;
    VolumeSeen(book.sell, 20);
    VolumeSeen(book.buy, 5);
    AskVolumes();
    EmptyFlat();
  }

  lemma OneOccupied(v: SideV, p: U64)
    requires Occupied(v) == {p}
    ensures BestPrice(SELL, v) == p
  {
    assert IsBest(SELL, {p}, BestPrice(SELL, v));
  }

  // ---------------------------------------------------------------- a book broken by a crossing modify

  const BID := OrderV(2, 1, 5, 5, 0, BUY, 1, false)
  const BIDS: SideV := map[5 := Alone(BID)]

  /** A bid at 5 rests below the ask at 10. */
  lemma BidRests(book: OrderBook, bid: Order, before: Snap)
    requires book.Valid() && before.taker == BID
    requires Executed(book.sell.side, 5, ASK, book.Table(SELL), before, book.SideAfter(bid, book.sell))
    requires book.Table(BUY) == if bid.IsFilled() then map[] else Placed(map[], bid.View())
    requires bid.ID in book.OrderIndex <==> !bid.IsFilled()
    ensures book.Table(BUY) == BIDS && book.Table(SELL) == ASK && 2 in book.OrderIndex
  {
    hide OrderBook.Sound, Executed, Placed, SideOk, SideView, OrderBook.Table, Pair, Alone;
    book.SoundShape();
    BidTables();
    ExecutedIdle(book.sell.side, 5, ASK, book.Table(SELL), before, book.SideAfter(bid, book.sell));
  }

  lemma BidTables()
    ensures Placed(map[], BID) == BIDS && forall p :: p in ASK ==> p == 10
  {
    hide Alone;
    PlacedAlone(BID);
  }

  lemma PlacedAlone(o: OrderV)
    requires o.slot < WIDTH
    ensures Placed(map[], o) == map[o.price := Alone(o)]
  {
    assert EMPTY_LEVEL[o.slot] + [o] == [o];
  }

  /** At the ask's price the bid crosses. */
  lemma BidCrosses(book: OrderBook)
    requires book.Valid() && 2 in book.OrderIndex && book.Table(BUY) == BIDS && book.Table(SELL) == ASK
    ensures book.OrderIndex[2].View() == BID && VolumeAt(book.buy, 10) == 0 && book.Crosses(BID, 10, 5)
  {
    hide SideView, Trie.Valid, Flat, PriceLevel.Valid, NotCrossed, IndexExact, Sum;
    var order := book.OrderIndex[2];
    book.IndexedId(2);
    if order in book.sell.orders {
      OrderSeen(book.sell, order);
    } else {
      OrderSeen(book.buy, order);
    }
    AskVolumes();
    AloneFlat(NEAR);
    EmptyFlat();
    VolumeSeen(book.sell, 10);
    VolumeSeen(book.buy, 10);
  }

  /** An ask at 10 and a bid at 5, and the bid is changed to 10: a valid book is not valid any more. */
  method CrossingModify() returns (book: OrderBook)
    ensures !book.Valid()
  {
    hide OrderBook.Shape, OrderBook.Sound, OrderBook.Fresh, OrderBook.Table, OrderBook.SideAfter, Executed, Placed,
      VolumeAt, OrderBook.CachesOk, Trie.Valid, OrderBook.Crosses, OrderBook.Modified;
    book := FirstAsk();
    book.SoundShape();
    NoVolumeYet(book);
    ghost var before := Snap(book.Trades, book.nextTradeID, BID, book.OrderIndex, book.sell.orders);
    var bid := book.AddLimitOrder(1, 5, 5, BUY);
    book.SoundShape();
    BidRests(book, bid, before);
    BidCrosses(book);
    var ok := book.ModifyOrder(2, Some(10), None);
  }
}
