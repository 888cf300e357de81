/** The laws of matching, on a book and its operations. */
module BookRuns {
  import opened Words
  import opened MatchSpec
  import opened BookObjects
  import opened PriceTrie
  import opened BookSpec
  import opened BookSides
  import opened BookLaws
  import opened BookTiers
  import opened OrderBook

  lemma BookPriced(book: OrderBook)
    requires book.Valid()
    ensures Priced(book.Table(BUY)) && Priced(book.Table(SELL))
  {
    hide Trie.Valid, LevelsOk, Views, Priced, NotCrossed, IndexExact;
    SidePriced(book.buy);
    SidePriced(book.sell);
  }

  /** Every order rests in the slot of its trader and size. */
  ghost predicate Tiered(book: OrderBook)
    reads book.buy, book.sell, book.buy.nodes.Values, book.sell.nodes.Values, book.buy.levels.Values,
      book.sell.levels.Values, book.buy.orders, book.sell.orders
  {
    book.Shape() && InTiers(book.Table(BUY)) && InTiers(book.Table(SELL))
  }

  lemma SlotFits(o: OrderV)
    requires o.slot == OrderBook.DetermineSlot(o.trader, o.size)
    ensures Fits(o)
  {
  }

  /** In a valid book whose orders rest in their slots, a taker meets at each price all orders of traders below 100
      first, then the small orders of the others, then all the rest. */
  lemma TiersFirst(book: OrderBook, side: Side, limit: U64)
    requires book.Valid() && Tiered(book)
    ensures var q := FlatSide(side, book.Table(side), limit);
            forall i, j :: 0 <= i < j < |q| && q[i].price == q[j].price ==> Tier(q[i]) <= Tier(q[j])
  {
    hide InTiers, Priced, OrderBook.Table, OrderBook.Sound;
    book.SoundShape();
    BookPriced(book);
    TiersInTurn(side, book.Table(side), limit);
  }

  /** A new book has nobody in the wrong slot. */
  method Open() returns (book: OrderBook)
    ensures fresh(book) && book.Valid() && Tiered(book)
  {
    hide OrderBook.Sound, OrderBook.Table;
    book := new OrderBook();
    book.SoundShape();
  }

  /** A book and a taker at one moment. */
  datatype Picture = Picture(own: SideV, opposite: SideV, snap: Snap)

  ghost function Seen(book: OrderBook, side: Side, taker: OrderV, index: Index): Picture
    reads book`Trades, book`nextTradeID
    reads book.buy, book.sell, book.buy.nodes.Values, book.sell.nodes.Values, book.buy.levels.Values,
      book.sell.levels.Values, book.buy.orders, book.sell.orders
  {
    Picture(if book.Shape() then book.Table(side) else map[], if book.Shape() then book.Table(Other(side)) else map[],
            Snap(book.Trades, book.nextTradeID, taker, index, book.Opposite(side).orders))
  }

  /** A new order has the slot of its trader and size, trades by price and time, and conserves what is traded.  What is
      left of it stands behind all who were at its price and in its slot, if it may rest, and everybody is in the slot
      of their tier if they were before. */
  ghost predicate Lawful(side: Side, limit: U64, rests: bool, p: Picture, p': Picture) {
    var o, o' := p.snap.taker, p'.snap.taker;
    && Fits(o) && o'.slot == o.slot
    && ByPriority(Other(side), limit, p.opposite, p'.opposite, p.snap, p'.snap)
    && Conserved(Other(side), limit, p.opposite, p'.opposite, p.snap, p'.snap)
    && (if rests && o'.Remaining() > 0 then JoinsBack(p.own, p'.own, o') else p'.own == p.own)
    && (InTiers(p.own) && InTiers(p.opposite) ==> InTiers(p'.own) && InTiers(p'.opposite))
  }

  lemma TraderTrades(side: Side, limit: U64, rests: bool, p: Picture, p': Picture)
    requires Executed(Other(side), limit, p.opposite, p'.opposite, p.snap, p'.snap)
    requires Priced(p.opposite) && Priced(p'.opposite)
    requires p'.own == if rests && p'.snap.taker.Remaining() > 0 then Placed(p.own, p'.snap.taker) else p.own
    requires p.snap.taker.slot == OrderBook.DetermineSlot(p.snap.taker.trader, p.snap.taker.size)
    ensures Lawful(side, limit, rests, p, p')
  {
    hide InTiers, Priced, Placed, FillQueue, FlatSide, ByPriority, Conserved, Fits, JoinsBack;
    var book, a, b := Other(side), p.snap, p'.snap;
    SlotFits(a.taker);
    RanAmount(FillQueue(FlatSide(book, p.opposite, limit), a.taker.Remaining()).fills, a, b);
    PriceTimePriority(book, limit, p.opposite, p'.opposite, a, b);
    Conservation(book, limit, p.opposite, p'.opposite, a, b);
    PlacedBack(p.own, b.taker);
    TiersAdded(book, limit, p.own, p.opposite, p'.own, p'.opposite, a, b);
  }

  lemma SidesKnown(book: OrderBook, side: Side)
    requires book.Valid()
    ensures book.Shape() && book.Opposite(side).side == Other(side)
    ensures Priced(book.Table(side)) && Priced(book.Table(Other(side)))
    ensures Tiered(book) <==> InTiers(book.Table(side)) && InTiers(book.Table(Other(side)))
  {
    hide Trie.Valid, LevelsOk, Views, Priced, NotCrossed, IndexExact, InTiers;
    BookPriced(book);
  }

  /** A limit order on a valid book. */
  method AddByPriority(book: OrderBook, traderID: U32, price: U64, size: U64, side: Side) returns (order: Order)
    requires book.Valid() && book.nextOrderID < U64_MAX && VolumeAt(book.Own(side), price) + size <= U64_MAX
    modifies book`Trades, book`OrderIndex, book`nextTradeID, book`nextOrderID, book`bestBidCache, book`bestAskCache
    modifies book.Own(side)`nodes, book.Own(side)`levels, book.Own(side)`orders, book.Own(side).nodes.Values,
      book.Own(side).levels.Values
    modifies book.Opposite(side)`orders, book.Opposite(side).levels.Values, book.Opposite(side).orders
    ensures var o := OrderV(old(book.nextOrderID) + 1, traderID, price, size, 0, side, order.Slot, false);
            Lawful(side, price, true, old(Seen(book, side, o, book.OrderIndex)),
                   Seen(book, side, order.View(), book.OrderIndex - {order.ID}))
    ensures old(Tiered(book)) ==> Tiered(book)
    ensures book.Valid()
  {
    hide OrderBook.Sound, OrderBook.Table, OrderBook.Fresh, Priced, Executed, VolumeAt, Placed, Grown, InTiers, Lawful,
      Tiered, OrderBook.Shape;
    SidesKnown(book, side);
    ghost var slot := OrderBook.DetermineSlot(traderID, size);
    ghost var o := OrderV(book.nextOrderID + 1, traderID, price, size, 0, side, slot, false);
    ghost var p := Seen(book, side, o, book.OrderIndex);
    order := book.AddLimitOrder(traderID, price, size, side);
    SidesKnown(book, side);
    ghost var p' := Seen(book, side, order.View(), book.OrderIndex - {order.ID});
    TraderTrades(side, price, true, p, p');
    LawfulSlot(side, price, true, p, p');
  }

  lemma LawfulSlot(side: Side, limit: U64, rests: bool, p: Picture, p': Picture)
    requires Lawful(side, limit, rests, p, p')
    ensures p'.snap.taker.slot == p.snap.taker.slot
    ensures InTiers(p.own) && InTiers(p.opposite) ==> InTiers(p'.own) && InTiers(p'.opposite)
  {
    hide InTiers, ByPriority, Conserved, Fits, JoinsBack;
  }

  /** A market order on a valid book: the same at any price, and nothing of it rests. */
  method TakeByPriority(book: OrderBook, traderID: U32, size: U64, side: Side) returns (ok: bool, ghost taker: OrderV)
    requires book.Valid() && book.nextOrderID < U64_MAX
    modifies book`Trades, book`OrderIndex, book`nextTradeID, book`nextOrderID, book`bestBidCache, book`bestAskCache
    modifies book.Opposite(side)`orders, book.Opposite(side).levels.Values, book.Opposite(side).orders
    ensures var limit := if side == BUY then U64_MAX else 0;
            var o := OrderV(old(book.nextOrderID) + 1, traderID, limit, size, 0, side, taker.slot, false);
            Lawful(side, limit, false, old(Seen(book, side, o, book.OrderIndex)),
                   Seen(book, side, taker, book.OrderIndex))
    ensures old(Tiered(book)) ==> Tiered(book)
    ensures ok && book.Valid()
  {
    hide OrderBook.Sound, OrderBook.Table, OrderBook.Fresh, Priced, Executed, Placed, InTiers, Lawful, Tiered,
      OrderBook.Shape;
    SidesKnown(book, side);
    ghost var limit, slot := if side == BUY then U64_MAX else 0, OrderBook.DetermineSlot(traderID, size);
    ghost var o := OrderV(book.nextOrderID + 1, traderID, limit, size, 0, side, slot, false);
    ghost var p := Seen(book, side, o, book.OrderIndex);
    ok, taker := book.ExecuteMarketOrder(traderID, size, side);
    SidesKnown(book, side);
    ghost var p' := Seen(book, side, taker, book.OrderIndex);
    TraderTrades(side, limit, false, p, p');
    LawfulSlot(side, limit, false, p, p');
  }

  // ---------------------------------------------------------------- cancelling and changing

  /** Both sides on values. */
  datatype Sides = Sides(bids: SideV, asks: SideV) {
    function Of(side: Side): SideV {
      if side == BUY then bids else asks
    }
  }

  ghost function SidesOf(book: OrderBook): Sides
    reads book.buy, book.sell, book.buy.nodes.Values, book.sell.nodes.Values, book.buy.levels.Values,
      book.sell.levels.Values, book.buy.orders, book.sell.orders
  {
    if book.Shape() then Sides(book.Table(BUY), book.Table(SELL)) else Sides(map[], map[])
  }

  /** What is on the table is the view of a resting order. */
  lemma OnTable(t: Trie, p: U64, s: nat, x: OrderV) returns (order: Order)
    requires SideOk(t) && x in QueueAt(SideView(t), p, s)
    ensures order in t.orders && order.View() == x
  {
    hide Trie.Valid;
    t.levels[p].ViewAt();
    var os := t.levels[p].Slots[s].Orders;
    var i :| 0 <= i < |QueueOf(os)| && QueueOf(os)[i] == x;
    order := os[i];
  }

  /** An indexed order stands in its queue. */
  lemma OrderStands(book: OrderBook, orderID: U64)
    requires book.Valid() && orderID in book.OrderIndex
    ensures var o := book.OrderIndex[orderID].View(); o.id == orderID && Stands(book.Table(o.side), o)
  {
    hide Trie.Valid, SideView, NotCrossed, IndexExact, SideOk;
    var order := book.OrderIndex[orderID];
    var o := order.View();
    book.IndexedId(orderID);
    book.OrderSide(order);
    var t := book.Own(order.Side);
    OrderSeen(t, order);
    forall x | x in QueueAt(SideView(t), o.price, o.slot) && x.id == o.id ensures x == o {
      var other := OnTable(t, o.price, o.slot, x);
      Indexed(book.OrderIndex, book.buy.orders + book.sell.orders, book.nextOrderID, orderID);
      assert other.ID == order.ID;
    }
  }

  /** Exactly the order leaves its queue, and nobody changes tier. */
  method CancelInOrder(book: OrderBook, orderID: U64) returns (ok: bool)
    requires book.Valid()
    modifies book`OrderIndex, book`bestBidCache, book`bestAskCache
    modifies book.buy, book.sell, book.buy.nodes.Values, book.sell.nodes.Values, book.buy.levels.Values,
      book.sell.levels.Values, book.buy.orders, book.sell.orders
    ensures ok <==> old(orderID in book.OrderIndex)
    ensures ok ==> var o := old(book.OrderIndex[orderID].View());
              && Left(old(SidesOf(book)).Of(o.side), SidesOf(book).Of(o.side), o)
              && SidesOf(book).Of(Other(o.side)) == old(SidesOf(book)).Of(Other(o.side))
    ensures !ok ==> SidesOf(book) == old(SidesOf(book))
    ensures old(Tiered(book)) ==> Tiered(book)
    ensures book.Valid()
  {
    hide OrderBook.Sound, OrderBook.Table, OrderBook.Fresh, OrderBook.Shape, Without, InTiers, Left, Stands,
      OrderBook.LastAtCachedAsk;
    SidesKnown(book, BUY);
    if orderID in book.OrderIndex {
      OrderStands(book, orderID);
      ghost var o := book.OrderIndex[orderID].View();
      WithoutLeft(book.Table(o.side), o);
      TiersKept(book.Table(o.side), o);
    }
    ok := book.CancelOrder(orderID);
    SidesKnown(book, BUY);
  }

  /** The order with a new price or size, in the slot for it. */
  lemma ModifiedChanges(v: SideV, o: OrderV, price: U64, size: U64)
    requires Stands(v, o)
    ensures var o' := OrderBook.Changed(o, price, size);
            && o' == o.(price := price, size := size, slot := o'.slot) && Fits(o')
            && Changes(v, OrderBook.Modified(v, o, o'), o, o')
            && (InTiers(v) ==> InTiers(OrderBook.Modified(v, o, o')))
  {
    hide Without, Placed, Replaced, Left, InTiers, JoinsBack, Fits, Stands;
    var o' := OrderBook.Changed(o, price, size);
    SlotFits(o');
    WithoutLeft(v, o);
    TiersKept(v, o);
    if o'.Remaining() > 0 {
      if price == o.price && o'.slot == o.slot {
        ReplacedChanges(v, o, o');
        if InTiers(v) { TiersReplaced(v, o'); }
      } else {
        PlacedBack(Without(v, o), o');
        if InTiers(v) { TiersPlaced(Without(v, o), o'); }
      }
    }
  }

  /** A taker with this limit would meet somebody. */
  ghost predicate Meets(book: Side, v: SideV, limit: U64) {
    exists p, s :: p in v && 0 <= s < 16 && Within(book, p, limit) && v[p][s] != []
  }

  lemma MeetsSome(t: Trie, limit: U64)
    requires SideOk(t)
    ensures Exhausted(t, limit) <==> !Meets(t.side, SideView(t), limit)
  {
    hide Trie.Valid, PriceLevel.Valid, PriceLevel.View;
    forall p | p in t.levels
      ensures t.levels[p].TotalVolume == 0 <==> forall s :: 0 <= s < 16 ==> SideView(t)[p][s] == []
    {
      t.levels[p].VolumeFacts();
      FlatNothing(SideView(t)[p]);
    }
    assert forall p :: p in t.levels ==> (Eligible(t.side, p, limit) <==> Within(t.side, p, limit));
  }

  lemma CrossesMeets(book: OrderBook, o: OrderV, price: U64, size: U64)
    requires book.Valid()
    ensures book.Crosses(o, price, size) <==>
            price != o.price && o.filled < size && Meets(Other(o.side), SidesOf(book).Of(Other(o.side)), price)
  {
    hide Trie.Valid, NotCrossed, IndexExact, SideOk, SideView, Meets, Exhausted;
    MeetsSome(book.Opposite(o.side), price);
  }

  /** The book stays valid exactly when the order, at a new price and still open, would meet nobody.  Then it is gone,
      keeps its place or stands behind the others at its new price, and nobody else moves. */
  method ModifyInOrder(book: OrderBook, orderID: U64, newPrice: Option<U64>, newSize: Option<U64>)
    returns (ok: bool, ghost o': OrderV)
    requires book.Valid()
    requires orderID in book.OrderIndex ==>
               var o := book.OrderIndex[orderID].View();
               var price, size := newPrice.GetOr(o.price), newSize.GetOr(o.size);
               (price != o.price || size != o.size) ==> VolumeAt(book.Own(o.side), price) + size <= U64_MAX
    modifies book`Trades, book`OrderIndex, book`nextTradeID, book`bestBidCache, book`bestAskCache
    modifies book.buy, book.sell, book.buy.nodes.Values, book.sell.nodes.Values, book.buy.levels.Values,
      book.sell.levels.Values, book.buy.orders, book.sell.orders
    ensures ok <==> old(orderID in book.OrderIndex)
    ensures !ok ==> SidesOf(book) == old(SidesOf(book))
    ensures ok ==>
              var o, s, s' := old(book.OrderIndex[orderID].View()), old(SidesOf(book)), SidesOf(book);
              var price, size := newPrice.GetOr(o.price), newSize.GetOr(o.size);
              && (book.Valid() <==>
                    price == o.price || size <= o.filled || !Meets(Other(o.side), s.Of(Other(o.side)), price))
              && o' == o.(price := price, size := size, slot := o'.slot)
              && (book.Valid() ==>
                    && book.Trades == old(book.Trades) && s'.Of(Other(o.side)) == s.Of(Other(o.side))
                    && if price == o.price && size == o.size then s' == s
                       else Fits(o') && Changes(s.Of(o.side), s'.Of(o.side), o, o'))
    ensures !ok || book.Valid() ==> old(Tiered(book)) ==> Tiered(book)
  {
    hide OrderBook.Sound, OrderBook.Table, OrderBook.Fresh, OrderBook.Shape, OrderBook.Modified, OrderBook.Changed,
      OrderBook.Crosses, InTiers, Changes, Stands, Meets, Fits, VolumeAt;
    SidesKnown(book, BUY);
    if orderID !in book.OrderIndex {
      ok := book.ModifyOrder(orderID, newPrice, newSize);
      SidesKnown(book, BUY);
      return ok, OrderV(0, 0, 0, 0, 0, BUY, 0, false);
    }
    OrderStands(book, orderID);
    ghost var o := book.OrderIndex[orderID].View();
    ghost var price, size := newPrice.GetOr(o.price), newSize.GetOr(o.size);
    CrossesMeets(book, o, price, size);
    ModifiedChanges(book.Table(o.side), o, price, size);
    o' := if price == o.price && size == o.size then o else OrderBook.Changed(o, price, size);
    ok := book.ModifyOrder(orderID, newPrice, newSize);
    if book.Valid() { SidesKnown(book, BUY); }
  }

  // ---------------------------------------------------------------- the best prices

  /** Somebody rests at this price. */
  ghost predicate Rests(v: SideV, p: U64) {
    exists s :: 0 <= s < 16 && QueueAt(v, p, s) != []
  }

  lemma RestsOccupied(v: SideV, p: U64)
    ensures Rests(v, p) <==> p in Occupied(v)
  {
    if p in v {
      FlatNothing(v[p]);
      assert forall s :: 0 <= s < 16 ==> QueueAt(v, p, s) == v[p][s];
    }
  }

  /** The best bid is the highest price at which a bid rests, and 0 when there is none.  The best ask is the lowest
      price at which an ask rests, exactly when the cached ask is fresh. */
  lemma BestPricesAre(book: OrderBook, p: U64)
    requires book.Valid()
    ensures Rests(book.Table(BUY), p) ==> Rests(book.Table(BUY), book.GetBestBid()) && p <= book.GetBestBid()
    ensures (forall q :: !Rests(book.Table(BUY), q)) ==> book.GetBestBid() == 0
    ensures Rests(book.Table(SELL), p) && book.Fresh(SELL) ==>
              Rests(book.Table(SELL), book.GetBestAsk()) && book.GetBestAsk() <= p
    ensures Rests(book.Table(SELL), p) && !book.Fresh(SELL) ==> book.GetBestAsk() == 0
    ensures (forall q :: !Rests(book.Table(SELL), q)) ==> book.GetBestAsk() == 0
  {
    hide Rests, Occupied, OrderBook.Sound, OrderBook.Table;
    book.SoundShape();
    book.BestBidExact();
    book.BestAskExact();
    forall q ensures Rests(book.Table(BUY), q) <==> q in Occupied(book.Table(BUY)) {
      RestsOccupied(book.Table(BUY), q);
    }
    forall q ensures Rests(book.Table(SELL), q) <==> q in Occupied(book.Table(SELL)) {
      RestsOccupied(book.Table(SELL), q);
    }
  }
}
