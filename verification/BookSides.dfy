/** One side of the book: a trie of levels and the orders that rest there. */
module BookSides {
  import opened Words
  import opened MatchSpec
  import opened BookObjects
  import opened PriceTrie
  import opened BookSpec

  /** Every level is sound, and exactly the orders of the side rest there, each at the level of its price. */
  ghost predicate LevelsOk(levels: map<U64, PriceLevel>, orders: set<Order>, side: Side)
    reads levels.Values, orders
  {
    && (forall p :: p in levels ==> levels[p].Resting <= orders)
    && (forall p :: p in levels ==> levels[p].Valid())
    && (forall o :: o in orders ==> o.Side == side && o.Price in levels && o in levels[o.Price].Resting)
  }

  ghost predicate SideOk(t: Trie)
    reads t, t.nodes.Values, t.levels.Values, t.orders
  {
    t.Valid() && LevelsOk(t.levels, t.orders, t.side)
  }

  ghost function Views(levels: map<U64, PriceLevel>, orders: set<Order>, side: Side): SideV
    reads levels.Values, orders
    requires LevelsOk(levels, orders, side)
  {
    map p | p in levels :: levels[p].View()
  }

  ghost function SideView(t: Trie): SideV
    reads t, t.nodes.Values, t.levels.Values, t.orders
    requires SideOk(t)
  {
    Views(t.levels, t.orders, t.side)
  }

  /** The levels of a side other than the one at `price`. */
  ghost function Others(t: Trie, price: U64): set<PriceLevel>
    reads t`levels
  {
    set p | p in t.levels && p != price :: t.levels[p]
  }

  /** All levels but one are sound, and `others` are exactly the orders resting there. */
  ghost predicate OthersOk(t: Trie, price: U64, others: set<Order>)
    reads t`levels, Others(t, price), others
  {
    && (forall p :: p in t.levels && p != price ==> t.levels[p].Resting <= others)
    && (forall p :: p in t.levels && p != price ==> t.levels[p].Valid())
    && (forall o :: o in others ==>
         o.Side == t.side && o.Price != price && o.Price in t.levels && o in t.levels[o.Price].Resting)
  }

  ghost function OthersView(t: Trie, price: U64, others: set<Order>): SideV
    reads t`levels, Others(t, price), others
    requires OthersOk(t, price, others)
  {
    map p | p in t.levels && p != price :: t.levels[p].View()
  }

  /** A sound side is one level and the others, apart from each other. */
  lemma SplitSide(t: Trie, level: PriceLevel)
    requires SideOk(t) && level.Price in t.levels && t.levels[level.Price] == level
    ensures t.Valid() && level.Valid() && level.Resting <= t.orders && level.side == t.side
      && level !in Others(t, level.Price)
    ensures OthersOk(t, level.Price, t.orders - level.Resting)
  {
    hide PriceLevel.Valid, Trie.Valid;
    t.LevelsKnown();
    forall p | p in t.levels ensures forall o :: o in t.levels[p].Resting ==> o.Price == p {
      t.levels[p].RestingPlaced();
    }
  }

  lemma SplitView(t: Trie, level: PriceLevel)
    requires SideOk(t) && level.Price in t.levels && t.levels[level.Price] == level
    requires OthersOk(t, level.Price, t.orders - level.Resting)
    ensures SideView(t) == OthersView(t, level.Price, t.orders - level.Resting)[level.Price := level.View()]
  {
    hide PriceLevel.Valid, PriceLevel.View, Trie.Valid;
  }

  lemma JoinSide(t: Trie, level: PriceLevel, others: set<Order>)
    requires t.Valid() && level.Price in t.levels && t.levels[level.Price] == level
    requires level.Valid() && OthersOk(t, level.Price, others) && t.orders == others + level.Resting
    ensures SideOk(t)
  {
    hide PriceLevel.Valid, Trie.Valid;
    level.RestingPlaced();
    t.LevelsKnown();
  }

  lemma JoinView(t: Trie, level: PriceLevel, others: set<Order>)
    requires SideOk(t) && level.Price in t.levels && t.levels[level.Price] == level
    requires OthersOk(t, level.Price, others)
    ensures SideView(t) == OthersView(t, level.Price, others)[level.Price := level.View()]
  {
    hide PriceLevel.Valid, PriceLevel.View, Trie.Valid;
  }

  /** The best level of a side with volume comes first in the queue that the taker faces. */
  lemma BestFacts(t: Trie, level: PriceLevel, limit: U64)
    requires SideOk(t) && TrueBest(t, level, limit)
    ensures FirstLevel(t.side, SideView(t), limit, level.Price) && SideView(t)[level.Price] == level.View()
    ensures level.Valid() && level.Resting <= t.orders && level in t.levels.Values
    ensures Flat(level.View()) != [] && Sum(Flat(level.View())) == level.TotalVolume
  {
    hide PriceLevel.Valid, Trie.Valid, Flat, Live, Sum;
    level.VolumeFacts();
    forall p | p in t.levels && Better(t.side, p, level.Price) ensures Flat(SideView(t)[p]) == [] {
      t.levels[p].VolumeFacts();
    }
  }

  lemma EmptySide(t: Trie)
    requires t.Valid() && t.levels == map[] && t.orders == {}
    ensures SideOk(t) && SideView(t) == map[] && t.CacheOk(null)
  {
    hide Trie.Valid;
  }

  lemma SideShape(t: Trie)
    requires SideOk(t)
    ensures t.Valid()
  {
  }

  /** A level with volume, within the limit, and none better has volume. */
  ghost predicate TrueBest(t: Trie, level: PriceLevel, limit: U64)
    reads t, t.levels.Values, level
  {
    && level.Price in t.levels && t.levels[level.Price] == level && level in t.levels.Values
    && level.TotalVolume > 0 && Eligible(t.side, level.Price, limit)
    && forall p :: p in t.levels && Better(t.side, p, level.Price) ==> t.levels[p].TotalVolume == 0
  }

  /** No volume is left within the limit. */
  ghost predicate Exhausted(t: Trie, limit: U64)
    reads t, t.levels.Values
  {
    forall p :: p in t.levels && Eligible(t.side, p, limit) ==> t.levels[p].TotalVolume == 0
  }

  lemma NotExhausted(t: Trie, level: PriceLevel, limit: U64)
    requires TrueBest(t, level, limit)
    ensures !Exhausted(t, limit)
  {
  }

  /** Without eligible volume the taker faces an empty queue. */
  lemma NothingEligible(t: Trie, limit: U64)
    requires SideOk(t)
    requires Exhausted(t, limit)
    ensures FlatSide(t.side, SideView(t), limit) == []
  {
    hide PriceLevel.Valid, Trie.Valid, Flat;
    var ps := EligiblePrices(t.side, SideView(t), limit);
    forall p | p in ps ensures Flat(SideView(t)[p]) == [] {
      t.levels[p].VolumeFacts();
    }
    FlatEmpty(t.side, SideView(t), ps);
  }

  lemma ExhaustedView(t: Trie, limit: U64)
    requires SideOk(t) && Exhausted(t, limit)
    ensures forall p :: p in SideView(t) && Eligible(t.side, p, limit) ==> Flat(SideView(t)[p]) == []
  {
    hide PriceLevel.Valid, Trie.Valid, Flat;
    forall p | p in SideView(t) && Eligible(t.side, p, limit) ensures Flat(SideView(t)[p]) == [] {
      t.levels[p].VolumeFacts();
    }
  }

  /** An order that no opposite level suits crosses nothing. */
  lemma UncrossedPlaced(side: Side, own: SideV, v: SideV, o: OrderV)
    requires Uncrossed(side, own, v)
    requires forall p :: p in v && Eligible(Other(side), p, o.price) ==> Flat(v[p]) == []
    ensures Uncrossed(side, Placed(own, o), v)
  {
    hide Flat;
  }

  lemma UpdateTwice(v: SideV, p: U64, a: LevelV, b: LevelV)
    ensures var v': SideV := v[p := a]; v'[p := b] == v[p := b]
  {
  }

  // ---------------------------------------------------------------- joining and leaving a side

  const EMPTY_LEVEL: LevelV := [[], [], [], [], [], [], [], [], [], [], [], [], [], [], [], []]

  function LevelAt(v: SideV, p: U64): LevelV {
    if p in v then v[p] else EMPTY_LEVEL
  }

  /** The order joins the back of the queue of its slot at the level of its price. */
  function Placed(v: SideV, o: OrderV): SideV {
    var lv := LevelAt(v, o.price);
    if o.slot < WIDTH then v[o.price := lv[o.slot := lv[o.slot] + [o]]] else v
  }

  /** The queue without the first order that has the id. */
  function DropId(q: Queue, id: U64): Queue {
    if q == [] then [] else if q[0].id == id then q[1..] else [q[0]] + DropId(q[1..], id)
  }

  /** The queue with the first order of o's id replaced by o. */
  function PutId(q: Queue, o: OrderV): Queue {
    if q == [] then [] else if q[0].id == o.id then [o] + q[1..] else [q[0]] + PutId(q[1..], o)
  }

  /** The order leaves the queue of its slot; everyone else keeps their place. */
  function Without(v: SideV, o: OrderV): SideV {
    if o.price in v && o.slot < WIDTH then v[o.price := v[o.price][o.slot := DropId(v[o.price][o.slot], o.id)]] else v
  }

  /** The order of o's id becomes o, in its place. */
  function Replaced(v: SideV, o: OrderV): SideV {
    if o.price in v && o.slot < WIDTH then v[o.price := v[o.price][o.slot := PutId(v[o.price][o.slot], o)]] else v
  }

  lemma {:induction false} DropAt(q: Queue, id: U64, i: nat)
    requires i < |q| && q[i].id == id && forall j :: 0 <= j < i ==> q[j].id != id
    ensures DropId(q, id) == q[..i] + q[i + 1..]
  {
    if i > 0 {
      DropAt(q[1..], id, i - 1);
      assert q[..i] + q[i + 1..] == [q[0]] + (q[1..][..i - 1] + q[1..][i..]);
    } else {
      assert q[..0] + q[1..] == q[1..];
    }
  }

  lemma {:induction false} PutAt(q: Queue, o: OrderV, i: nat)
    requires i < |q| && q[i].id == o.id && forall j :: 0 <= j < i ==> q[j].id != o.id
    ensures PutId(q, o) == q[i := o]
  {
    if i > 0 {
      PutAt(q[1..], o, i - 1);
      assert q[i := o] == [q[0]] + q[1..][i - 1 := o];
    }
  }

  lemma {:induction false} FlatNothing(lv: seq<Queue>)
    ensures FlatTo(lv) == [] <==> forall s :: 0 <= s < |lv| ==> lv[s] == []
  {
    if lv != [] {
      FlatNothing(lv[..|lv| - 1]);
      assert forall s :: 0 <= s < |lv| - 1 ==> lv[s] == lv[..|lv| - 1][s];
    }
  }

  lemma WithoutShrinks(v: SideV, o: OrderV)
    ensures Shrunk(v, Without(v, o)) && Shrunk(v, v)
  {
    if o.price in v && o.slot < WIDTH {
      FlatNothing(v[o.price]);
      FlatNothing(Without(v, o)[o.price]);
    }
  }

  lemma UncrossedWithout(side: Side, own: SideV, v: SideV, order: OrderV)
    requires Uncrossed(side, own, v)
    ensures Uncrossed(side, Without(own, order), v)
  {
    hide Uncrossed, Shrunk, Without;
    WithoutShrinks(own, order);
    UncrossedShrunk(side, own, v, Without(own, order));
  }

  /** A level's volume, seen on the table. */
  lemma VolumeSeen(t: Trie, p: U64)
    requires SideOk(t)
    ensures VolumeAt(t, p) == Sum(Flat(LevelAt(SideView(t), p)))
  {
    hide PriceLevel.Valid, Trie.Valid, Flat, Sum;
    if p in t.levels {
      t.levels[p].VolumeFacts();
    } else {
      EmptyFlat();
    }
  }

  lemma EmptyFlat()
    ensures Flat(EMPTY_LEVEL) == [] && Sum(Flat(EMPTY_LEVEL)) == 0
  {
    FlatNothing(EMPTY_LEVEL);
  }

  /** A resting order is seen in the queue of its slot. */
  lemma OrderSeen(t: Trie, order: Order)
    requires SideOk(t) && order in t.orders
    ensures order.Price in SideView(t) && order.Slot < WIDTH && order.View() in SideView(t)[order.Price][order.Slot]
  {
    hide PriceLevel.Valid, Trie.Valid;
    LevelOfOrder(t, order);
    SlotOfSide(t, order);
    t.levels[order.Price].ViewAt();
    var os := t.levels[order.Price].Slots[order.Slot].Orders;
    var i :| 0 <= i < |os| && os[i] == order;
    assert QueueOf(os)[i] == order.View();
  }

  /** Where an order rests there is an occupied level. */
  lemma OccupiedBy(t: Trie, order: Order)
    requires SideOk(t) && order in t.orders
    ensures order.Price in SideView(t) && Flat(SideView(t)[order.Price]) != []
  {
    hide PriceLevel.Valid, Trie.Valid, Flat;
    LevelOfOrder(t, order);
    t.levels[order.Price].VolumeFacts();
  }

  /** Changing an occupied level crosses nothing. */
  lemma UncrossedAt(side: Side, own: SideV, v: SideV, p: U64, own': SideV)
    requires Uncrossed(side, own, v) && p in own && Flat(own[p]) != []
    requires own'.Keys == own.Keys && forall q :: q in own && q != p ==> own'[q] == own[q]
    ensures Uncrossed(side, own', v)
  {
    hide Flat;
  }

  lemma ChangedAt(v: SideV, o: OrderV, o': OrderV)
    requires o.price in v && o'.price == o.price
    ensures Replaced(v, o').Keys == v.Keys && forall q :: q in v && q != o.price ==> Replaced(v, o')[q] == v[q]
    ensures var w := Placed(Without(v, o), o'); w.Keys == v.Keys && forall q :: q in v && q != o.price ==> w[q] == v[q]
  {
  }

  /** Volume of the level at a price, zero when there is no level. */
  ghost function VolumeAt(t: Trie, p: U64): nat
    reads t, t.levels.Values
  {
    if p in t.levels then t.levels[p].TotalVolume else 0
  }

  lemma EmptyView(level: PriceLevel)
    requires level.Valid() && level.Resting == {}
    ensures level.View() == EMPTY_LEVEL
  {
    forall s | 0 <= s < WIDTH ensures level.View()[s] == [] {
      assert level.Slots[s].Orders == [];
    }
  }

  lemma LevelAdded(levels: map<U64, PriceLevel>, orders: set<Order>, side: Side, price: U64, level: PriceLevel)
    requires LevelsOk(levels, orders, side) && price !in levels && level.Valid() && level.Resting == {}
    ensures var all := levels[price := level];
            var v: SideV := Views(levels, orders, side);
            LevelsOk(all, orders, side) && Views(all, orders, side) == v[price := LevelAt(v, price)]
  {
    hide PriceLevel.Valid, PriceLevel.View;
    EmptyView(level);
  }

  lemma LevelThere(levels: map<U64, PriceLevel>, orders: set<Order>, side: Side, price: U64)
    requires LevelsOk(levels, orders, side) && price in levels
    ensures var v: SideV := Views(levels, orders, side); v == v[price := LevelAt(v, price)]
  {
    hide LevelsOk, PriceLevel.Valid, PriceLevel.View;
  }

  /** Whatever the side has gained is newly allocated. */
  twostate predicate Grown(t: Trie)
    reads t
  {
    && t.NodesGrown()
    && (forall p :: p in t.levels ==> fresh(t.levels[p]) || (p in old(t.levels) && t.levels[p] == old(t.levels)[p]))
  }

  /** Everything on a side is newly allocated. */
  twostate predicate NewSide(new t: Trie)
    reads t
  {
    && fresh(t) && (forall k :: k in t.nodes ==> fresh(t.nodes[k]))
    && (forall p :: p in t.levels ==> fresh(t.levels[p])) && (forall o :: o in t.orders ==> fresh(o))
  }

  /** The level for a price, created when there is none. */
  method LevelFor(t: Trie, price: U64, ghost cache: PriceLevel?) returns (level: PriceLevel)
    requires SideOk(t) && t.CacheOk(cache)
    modifies t`nodes, t`levels, t.nodes.Values
    ensures SideOk(t) && price in t.levels && t.levels[price] == level && level.Price == price
    ensures SideView(t) == old(SideView(t))[price := LevelAt(old(SideView(t)), price)]
    ensures t.NodesGrown() && (price !in old(t.levels) ==> fresh(level))
    ensures t.levels == old(t.levels)[price := level] && (price in old(t.levels) ==> level == old(t.levels[price]))
    ensures level.TotalVolume == old(VolumeAt(t, price)) && t.CacheBut(cache, price)
  {
    hide Trie.Valid, PriceLevel.Valid, PriceLevel.View, LevelsOk, Views, LevelAt;
    ghost var levels := t.levels;
    level := t.GetPriceLevel(price, true);
    t.LevelsKnown();
    if price !in levels {
      LevelAdded(levels, t.orders, t.side, price, level);
    } else {
      LevelThere(levels, t.orders, t.side, price);
    }
  }

  /** An open order joins its slot at an existing level. */
  method PlaceAt(t: Trie, level: PriceLevel, order: Order, ghost cache: PriceLevel?)
    requires t.CacheBut(cache, order.Price)
    requires SideOk(t) && order.Price in t.levels && t.levels[order.Price] == level && level.Price == order.Price
    requires order !in t.orders && order.Side == t.side && order.Slot < WIDTH && !order.IsFilled()
    requires level.TotalVolume + order.RemainingSize() <= U64_MAX
    modifies t`orders, level
    ensures SideOk(t) && t.orders == old(t.orders) + {order}
    ensures SideView(t) == Placed(old(SideView(t)), order.View()) && level.TotalVolume > 0
    ensures t.CacheBut(cache, order.Price) && (cache != null ==> cache.TotalVolume >= old(cache.TotalVolume))
  {
    hide Trie.Valid, PriceLevel.Valid, PriceLevel.View, LevelsOk, SideOk, SideView, OthersOk, OthersView;
    SplitSide(t, level);
    SplitView(t, level);
    ghost var others := t.orders - level.Resting;
    ghost var rest, lv := OthersView(t, level.Price, others), level.View();
    level.Append(order);
    t.orders := t.orders + {order};
    assert t.orders == others + level.Resting;
    JoinSide(t, level, others);
    JoinView(t, level, others);
    UpdateTwice(rest, level.Price, lv, level.View());
    t.LevelsKnown();
  }

  /** An open order rests at the level of its price, which is created when there is none. */
  method Place(t: Trie, order: Order, ghost cache: PriceLevel?)
    requires SideOk(t) && order !in t.orders && t.CacheOk(cache)
    requires order.Side == t.side && order.Slot < WIDTH && !order.IsFilled()
    requires VolumeAt(t, order.Price) + order.RemainingSize() <= U64_MAX
    modifies t`nodes, t`levels, t`orders, t.nodes.Values, t.levels.Values
    ensures SideOk(t) && t.orders == old(t.orders) + {order}
    ensures SideView(t) == Placed(old(SideView(t)), order.View())
    ensures Grown(t)
    ensures t.CacheBut(cache, order.Price) && (cache != null ==> cache.TotalVolume >= old(cache.TotalVolume))
    ensures order.Price in t.levels && t.levels[order.Price].TotalVolume > 0
  {
    hide SideOk, SideView, Trie.Valid, Trie.CacheOk, Trie.CacheBut, Placed;
    ghost var view := SideView(t);
    SideShape(t);
    t.LevelsKnown();
    var level := LevelFor(t, order.Price, cache);
    PlaceAt(t, level, order, cache);
    PlacedAfter(view, order.View());
  }

  lemma PlacedAfter(v: SideV, o: OrderV)
    requires o.slot < WIDTH
    ensures Placed(v[o.price := LevelAt(v, o.price)], o) == Placed(v, o)
  {
  }

  ghost predicate UniqueIds(orders: set<Order>)
    reads orders
  {
    forall a, b :: a in orders && b in orders && a.ID == b.ID ==> a == b
  }

  /** `for i, o := range slot.Orders { if o.ID == orderID`: the first place with the id. */
  method FindOrder(slot: Slot, orderID: U64) returns (i: nat)
    ensures i <= |slot.Orders| && (i < |slot.Orders| ==> slot.Orders[i].ID == orderID)
    ensures forall j :: 0 <= j < i ==> slot.Orders[j].ID != orderID
  {
    i := 0;
    while i < |slot.Orders| && slot.Orders[i].ID != orderID
      invariant i <= |slot.Orders| && forall j :: 0 <= j < i ==> slot.Orders[j].ID != orderID
    {
      i := i + 1;
    }
  }

  lemma SlotOfOrder(level: PriceLevel, order: Order)
    requires level.Valid() && order in level.Resting
    ensures order.Slot < WIDTH && |level.Slots| == WIDTH && order in level.Slots[order.Slot].Orders
    ensures order.Price == level.Price && order.Side == level.side && !order.IsFilled()
    ensures level.TotalVolume >= order.RemainingSize()
  {
    var i :| 0 <= i < |level.Slots[order.Slot].Orders| && level.Slots[order.Slot].Orders[i] == order;
    SlotSums(level.Slots[order.Slot], order.Slot, level.Price, level.side, i);
    SumVolumesUpdate(level.Slots, order.Slot, level.Slots[order.Slot]);
  }

  /** Among orders with distinct ids, the first place with an order's id is the order's. */
  lemma Located(level: PriceLevel, order: Order, i: nat)
    requires level.Valid() && order in level.Resting && UniqueIds(level.Resting)
    requires |level.Slots| == WIDTH && order.Slot < WIDTH && i <= |level.Slots[order.Slot].Orders|
    requires i < |level.Slots[order.Slot].Orders| ==> level.Slots[order.Slot].Orders[i].ID == order.ID
    requires forall j :: 0 <= j < i ==> level.Slots[order.Slot].Orders[j].ID != order.ID
    ensures i < |level.Slots[order.Slot].Orders| && level.Slots[order.Slot].Orders[i] == order
    ensures var q := level.View()[order.Slot];
            && |q| == |level.Slots[order.Slot].Orders| && DropId(q, order.ID) == q[..i] + q[i + 1..]
            && forall o: OrderV :: o.id == order.ID ==> PutId(q, o) == q[i := o]
  {
    SlotOfOrder(level, order);
    level.ViewAt();
    var q := level.View()[order.Slot];
    DropAt(q, order.ID, i);
    forall o: OrderV | o.id == order.ID ensures PutId(q, o) == q[i := o] {
      PutAt(q, o, i);
    }
  }

  /** The level where an order of the side rests. */
  lemma LevelOfOrder(t: Trie, order: Order)
    requires SideOk(t) && order in t.orders
    ensures order.Price in t.levels && order in t.levels[order.Price].Resting && t.levels[order.Price].Valid()
    ensures t.levels[order.Price].Price == order.Price && order.Side == t.side
    ensures order.Slot < WIDTH && |t.levels[order.Price].Slots| == WIDTH && !order.IsFilled()
    ensures order.RemainingSize() <= t.levels[order.Price].TotalVolume
  {
    hide PriceLevel.Valid, Trie.Valid;
    SlotOfOrder(t.levels[order.Price], order);
  }

  /** The slot of a resting order: its volume is what remains of its orders. */
  lemma SlotOfSide(t: Trie, order: Order)
    requires SideOk(t) && order in t.orders
    ensures order.Price in t.levels && order.Slot < WIDTH && |t.levels[order.Price].Slots| == WIDTH
    ensures var slot := t.levels[order.Price].Slots[order.Slot];
            && order in slot.Orders && slot.Volume == Sum(QueueOf(slot.Orders))
            && forall o :: o in slot.Orders ==> o in t.orders
  {
    hide Trie.Valid, Sum, QueueOf;
    assert order in t.levels[order.Price].Resting;
  }

  /** A side whose slot volume was right before one of the slot's orders was filled further is not sound. */
  lemma OutOfStep(t: Trie, order: Order, slot: Slot, q: Queue)
    requires order in t.orders && order.Price in t.levels && order.Slot < |t.levels[order.Price].Slots|
    requires slot == t.levels[order.Price].Slots[order.Slot] && slot.Volume == Sum(q) && order in slot.Orders
    requires |q| == |slot.Orders| && forall i :: 0 <= i < |q| ==> slot.Orders[i].RemainingSize() <= q[i].Remaining()
    requires forall i :: 0 <= i < |q| && slot.Orders[i] == order ==> slot.Orders[i].RemainingSize() < q[i].Remaining()
    ensures !SideOk(t)
  {
    hide Trie.Valid, Sum, QueueOf;
    if SideOk(t) {
      SlotOfSide(t, order);
      var i :| 0 <= i < |slot.Orders| && slot.Orders[i] == order;
      SumDrops(q, QueueOf(slot.Orders), i);
    }
  }

  /** A resting order leaves the side. */
  method TakeOut(t: Trie, level: PriceLevel, order: Order)
    requires SideOk(t) && order in t.orders && UniqueIds(t.orders)
    requires order.Price in t.levels && t.levels[order.Price] == level
    modifies t`orders, level
    ensures SideOk(t) && t.orders == old(t.orders) - {order}
    ensures level.TotalVolume == old(level.TotalVolume) - order.RemainingSize()
    ensures SideView(t) == Without(old(SideView(t)), order.View())
  {
    hide Trie.Valid, PriceLevel.Valid, PriceLevel.View, LevelsOk, SideOk, SideView, OthersOk, OthersView;
    LevelOfOrder(t, order);
    SplitSide(t, level);
    SplitView(t, level);
    ghost var others := t.orders - level.Resting;
    ghost var rest, lv := OthersView(t, level.Price, others), level.View();
    var i := FindOrder(level.Slots[order.Slot], order.ID);
    Located(level, order, i);
    level.RemoveAt(order.Slot, i);
    level.ZeroIfEmpty(order.Slot);
    t.orders := t.orders - {order};
    assert t.orders == others + level.Resting;
    JoinSide(t, level, others);
    JoinView(t, level, others);
    UpdateTwice(rest, level.Price, lv, level.View());
  }

  /** A resting order changes its size and keeps its place. */
  method ResizeIn(t: Trie, level: PriceLevel, order: Order, newSize: U64, ghost cache: PriceLevel?)
    requires t.CacheOk(cache)
    requires SideOk(t) && order in t.orders && UniqueIds(t.orders)
    requires order.Price in t.levels && t.levels[order.Price] == level
    requires order.FilledSize < newSize
    requires level.TotalVolume - order.RemainingSize() + (newSize - order.FilledSize) <= U64_MAX
    modifies level, order
    ensures SideOk(t) && order.View() == old(order.View()).(size := newSize)
    ensures level.TotalVolume == old(level.TotalVolume) - old(order.RemainingSize()) + order.RemainingSize()
    ensures SideView(t) == Replaced(old(SideView(t)), order.View())
    ensures t.CacheBut(cache, order.Price)
      && (cache != null && cache != level ==> cache.TotalVolume == old(cache.TotalVolume))
  {
    hide Trie.Valid, PriceLevel.Valid, PriceLevel.View, LevelsOk, SideOk, SideView, OthersOk, OthersView;
    LevelOfOrder(t, order);
    SplitSide(t, level);
    SplitView(t, level);
    ghost var others := t.orders - level.Resting;
    ghost var rest, lv := OthersView(t, level.Price, others), level.View();
    var i := FindOrder(level.Slots[order.Slot], order.ID);
    Located(level, order, i);
    level.ResizeAt(order.Slot, i, newSize);
    assert t.orders == others + level.Resting;
    JoinSide(t, level, others);
    JoinView(t, level, others);
    UpdateTwice(rest, level.Price, lv, level.View());
    t.LevelsKnown();
  }

  /** A level that now has volume takes over as best if there was none or its price is better. */
  method NewBest(t: Trie, cache: PriceLevel?, newPrice: U64) returns (best: PriceLevel?)
    requires SideOk(t) && newPrice in t.levels && t.levels[newPrice].TotalVolume > 0 && t.CacheBut(cache, newPrice)
    modifies t`nodes, t`levels, t.nodes.Values
    ensures t.CacheOk(best) && (best == null || best == cache || best.TotalVolume > 0)
    ensures SideOk(t) && SideView(t) == old(SideView(t)) && t.nodes == old(t.nodes) && t.levels == old(t.levels)
  {
    hide Trie.Valid, LevelsOk, Views;
    t.LevelsKnown();
    best := cache;
    if cache == null || Better(t.side, newPrice, cache.Price) {
      best := t.GetPriceLevel(newPrice, false);
    }
  }

  /** The level at a price, if there is one. */
  method LookUp(t: Trie, price: U64) returns (level: PriceLevel?)
    requires SideOk(t)
    modifies t`nodes, t`levels, t.nodes.Values
    ensures SideOk(t) && SideView(t) == old(SideView(t)) && t.nodes == old(t.nodes) && t.levels == old(t.levels)
    ensures if price in t.levels then level == t.levels[price] && level.Price == price else level == null
  {
    hide Trie.Valid, LevelsOk, Views;
    t.LevelsKnown();
    level := t.GetPriceLevel(price, false);
  }

  /** A resting order leaves its level; a cached bound stays true. */
  method WithdrawFrom(t: Trie, order: Order, ghost cache: PriceLevel?) returns (level: PriceLevel)
    requires SideOk(t) && order in t.orders && UniqueIds(t.orders) && t.CacheOk(cache)
    modifies t`nodes, t`levels, t`orders, t.nodes.Values, t.levels.Values
    ensures SideOk(t) && t.orders == old(t.orders) - {order} && t.CacheOk(cache) && t.nodes == old(t.nodes)
      && t.levels == old(t.levels)
    ensures SideView(t) == Without(old(SideView(t)), order.View()) && Shrunk(old(SideView(t)), SideView(t))
    ensures order.Price in t.levels && level == t.levels[order.Price] && level.Price == order.Price
    ensures level.TotalVolume == old(VolumeAt(t, order.Price)) - order.RemainingSize()
    ensures forall p :: VolumeAt(t, p) <= old(VolumeAt(t, p))
    ensures cache != null && cache != level ==> cache.TotalVolume == old(cache.TotalVolume)
  {
    hide SideOk, SideView, Shrunk, Without, Trie.Valid;
    LevelOfOrder(t, order);
    level := LookUp(t, order.Price);
    WithoutShrinks(SideView(t), order.View());
    SideShape(t);
    t.LevelsKnown();
    TakeOut(t, level, order);
  }

  /** What the refreshed cache of a side says about a taker's limit. */
  lemma CacheChoice(t: Trie, level: PriceLevel?, limit: U64)
    requires t.CacheOk(level) && (level != null ==> level.TotalVolume > 0)
    ensures if level != null && Eligible(t.side, level.Price, limit)
            then TrueBest(t, level, limit)
            else Exhausted(t, limit)
  {
  }

  // ---------------------------------------------------------------- two sides

  /** Two sound sides, opposite and apart from each other. */
  ghost predicate Pair(own: Trie, t: Trie)
    reads own, own.nodes.Values, own.levels.Values, own.orders, t, t.nodes.Values, t.levels.Values, t.orders
  {
    own.side != t.side && own.nodes.Values !! t.nodes.Values && SideOk(own) && SideOk(t)
  }

  lemma PairApart(own: Trie, t: Trie)
    requires Pair(own, t)
    ensures own != t && own.levels.Values !! t.levels.Values && own.orders !! t.orders
    ensures own.Valid() && t.Valid()
  {
    hide Trie.Valid, PriceLevel.Valid;
    own.LevelsKnown();
    t.LevelsKnown();
  }

  lemma CacheThere(t: Trie, cache: PriceLevel?)
    requires t.CacheOk(cache)
    ensures cache != null ==> cache in t.levels.Values
  {
  }

  /** The orders are as they were. */
  twostate predicate Kept(orders: set<Order>)
    reads orders
  {
    forall o :: o in orders ==> unchanged(o)
  }

  /** WithdrawFrom leaves the other side alone. */
  method WithdrawBeside(own: Trie, t: Trie, order: Order, ghost cache: PriceLevel?, ghost cacheT: PriceLevel?,
          ghost orders: set<Order>)
    returns (level: PriceLevel)
    requires Pair(own, t) && order in own.orders && UniqueIds(own.orders) && own.CacheOk(cache) && t.CacheOk(cacheT)
    modifies own`nodes, own`levels, own`orders, own.nodes.Values, own.levels.Values
    ensures Pair(own, t) && own.CacheOk(cache) && t.CacheOk(cacheT) && own.orders == old(own.orders) - {order}
      && own.nodes == old(own.nodes) && t.orders == old(t.orders)
    ensures SideView(own) == Without(old(SideView(own)), order.View()) && SideView(t) == old(SideView(t))
    ensures own.levels == old(own.levels) && order.Price in own.levels && level == own.levels[order.Price]
      && level.Price == order.Price
    ensures level.TotalVolume == old(VolumeAt(own, order.Price)) - order.RemainingSize()
    ensures forall p :: VolumeAt(own, p) <= old(VolumeAt(own, p))
    ensures cache != null && cache != level ==> cache.TotalVolume == old(cache.TotalVolume)
    ensures cacheT != null ==> cacheT.TotalVolume == old(cacheT.TotalVolume)
    ensures Kept(orders) && t.levels == old(t.levels) && forall p :: Exhausted(t, p) == old(Exhausted(t, p))
  {
    hide SideOk, SideView, Without, UniqueIds, Trie.CacheOk, Trie.Valid, Exhausted;
    PairApart(own, t);
    CacheThere(t, cacheT);
    level := WithdrawFrom(own, order, cache);
    assert SideOk(t);
    assert SideView(t) == old(SideView(t));
    assert t.CacheOk(cacheT);
  }

  /** Place leaves the other side alone. */
  method PlaceBeside(own: Trie, t: Trie, order: Order, ghost cache: PriceLevel?, ghost cacheT: PriceLevel?,
          ghost orders: set<Order>)
    requires Pair(own, t) && own.CacheOk(cache) && t.CacheOk(cacheT) && order !in own.orders
    requires order.Side == own.side && order.Slot < WIDTH && !order.IsFilled()
    requires VolumeAt(own, order.Price) + order.RemainingSize() <= U64_MAX
    modifies own`nodes, own`levels, own`orders, own.nodes.Values, own.levels.Values
    ensures Pair(own, t) && own.CacheBut(cache, order.Price) && t.CacheOk(cacheT)
      && own.orders == old(own.orders) + {order} && t.orders == old(t.orders) && Kept(orders)
    ensures SideView(own) == Placed(old(SideView(own)), order.View()) && SideView(t) == old(SideView(t))
    ensures order.Price in own.levels && own.levels[order.Price].TotalVolume > 0
    ensures Grown(own) && Exhausted(t, order.Price) == old(Exhausted(t, order.Price))
    ensures cache != null ==> cache.TotalVolume >= old(cache.TotalVolume)
    ensures cacheT != null ==> cacheT.TotalVolume == old(cacheT.TotalVolume)
  {
    hide SideOk, SideView, Placed, Trie.CacheOk, Trie.CacheBut, Trie.Valid, Exhausted;
    PairApart(own, t);
    CacheThere(t, cacheT);
    Place(own, order, cache);
    assert SideOk(t);
    assert SideView(t) == old(SideView(t));
    assert t.CacheOk(cacheT);
  }

  /** NewBest leaves the other side alone. */
  method NewBestBeside(own: Trie, t: Trie, cache: PriceLevel?, newPrice: U64, ghost cacheT: PriceLevel?)
    returns (best: PriceLevel?)
    requires Pair(own, t) && newPrice in own.levels && own.levels[newPrice].TotalVolume > 0
    requires own.CacheBut(cache, newPrice) && t.CacheOk(cacheT)
    modifies own`nodes, own`levels, own.nodes.Values
    ensures Pair(own, t) && own.CacheOk(best) && (best == null || best == cache || best.TotalVolume > 0)
      && t.CacheOk(cacheT)
    ensures SideView(own) == old(SideView(own)) && SideView(t) == old(SideView(t))
    ensures own.nodes == old(own.nodes) && own.levels == old(own.levels) && t.nodes == old(t.nodes)
      && t.levels == old(t.levels)
  {
    hide SideOk, SideView, Trie.CacheOk, Trie.CacheBut, Trie.Valid;
    PairApart(own, t);
    best := NewBest(own, cache, newPrice);
    assert SideOk(t);
    assert SideView(t) == old(SideView(t));
  }

  /** A resting order gets a new size where it rests; the caches stay as they are. */
  method ResizeBeside(own: Trie, t: Trie, order: Order, newSize: U64, ghost cache: PriceLevel?,
          ghost cacheT: PriceLevel?, ghost orders: set<Order>)
    requires order !in orders
    requires Pair(own, t) && order in own.orders && UniqueIds(own.orders) && own.CacheOk(cache) && t.CacheOk(cacheT)
    requires order.FilledSize < newSize && VolumeAt(own, order.Price) + newSize <= U64_MAX
    modifies own`nodes, own`levels, own.nodes.Values, own.levels.Values, order
    ensures Pair(own, t) && own.CacheOk(cache) && t.CacheOk(cacheT) && own.orders == old(own.orders)
      && t.orders == old(t.orders) && Kept(orders)
    ensures order.View() == old(order.View()).(size := newSize)
    ensures SideView(own) == Replaced(old(SideView(own)), order.View()) && SideView(t) == old(SideView(t))
    ensures cache != null && old(cache.TotalVolume) > 0 ==> cache.TotalVolume > 0
    ensures cacheT != null ==> cacheT.TotalVolume == old(cacheT.TotalVolume)
  {
    hide SideOk, SideView, Replaced, UniqueIds, Trie.CacheOk, Trie.CacheBut, Trie.Valid, Trie.Covers;
    PairApart(own, t);
    CacheThere(t, cacheT);
    LevelOfOrder(own, order);
    own.CoversVolume(cache, order.Price);
    var level := LookUp(own, order.Price);
    ResizeIn(own, level, order, newSize, cache);
    own.CacheWhole(cache, order.Price);
    assert SideOk(t);
    assert SideView(t) == old(SideView(t));
    assert t.CacheOk(cacheT);
  }

  /** An order that rests on neither side changes. */
  method AmendBeside(own: Trie, t: Trie, order: Order, newSize: U64, newSlot: nat, ghost cache: PriceLevel?,
          ghost cacheT: PriceLevel?, ghost orders: set<Order>)
    requires Pair(own, t) && order !in own.orders && order !in t.orders && order !in orders
    requires own.CacheOk(cache) && t.CacheOk(cacheT)
    modifies order`Price, order`Size, order`Slot
    ensures Pair(own, t) && SideView(own) == old(SideView(own)) && SideView(t) == old(SideView(t))
    ensures own.CacheOk(cache) && t.CacheOk(cacheT) && Kept(orders)
    ensures VolumeAt(own, order.Price) == old(VolumeAt(own, order.Price))
    ensures order.View() == old(order.View()).(size := newSize, slot := newSlot)
  {
    hide SideOk, SideView, Trie.Valid, Trie.CacheOk, VolumeAt;
    order.Amend(order.Price, newSize, newSlot);
    assert SideOk(own);
    assert SideOk(t);
  }

  lemma MoveFacts(own: Trie, t: Trie, order: Order)
    requires Pair(own, t) && order in own.orders
    ensures own != t && order !in t.orders && SideOk(own) && order.Side == own.side
  {
    hide SideView, Trie.Valid, PriceLevel.Valid;
    PairApart(own, t);
  }

  /** A resting order gets a new size and moves to the back of another slot of its level; the caches stay as they
      are. */
  method MoveBeside(own: Trie, t: Trie, order: Order, newSize: U64, newSlot: nat, ghost cache: PriceLevel?,
          ghost cacheT: PriceLevel?, ghost orders: set<Order>)
    requires order !in orders
    requires Pair(own, t) && order in own.orders && UniqueIds(own.orders) && own.CacheOk(cache) && t.CacheOk(cacheT)
    requires order.FilledSize < newSize && VolumeAt(own, order.Price) + newSize <= U64_MAX && newSlot < WIDTH
    modifies own`nodes, own`levels, own`orders, own.nodes.Values, own.levels.Values, order
    ensures Pair(own, t) && own.CacheOk(cache) && t.CacheOk(cacheT) && own.orders == old(own.orders)
      && t.orders == old(t.orders) && Kept(orders)
    ensures order.View() == old(order.View()).(size := newSize, slot := newSlot)
    ensures SideView(own) == Placed(Without(old(SideView(own)), old(order.View())), order.View())
      && SideView(t) == old(SideView(t))
    ensures cache != null && old(cache.TotalVolume) > 0 ==> cache.TotalVolume > 0
    ensures cacheT != null ==> cacheT.TotalVolume == old(cacheT.TotalVolume)
  {
    hide SideOk, SideView, Placed, Without, UniqueIds, Trie.CacheOk, Trie.CacheBut, Trie.Valid, Trie.Covers, Exhausted,
      Grown, VolumeAt;
    MoveFacts(own, t, order);
    hide Pair;
    LevelOfOrder(own, order);
    own.CoversVolume(cache, order.Price);
    var level := WithdrawBeside(own, t, order, cache, cacheT, orders);
    AmendBeside(own, t, order, newSize, newSlot, cache, cacheT, orders);
    PlaceBeside(own, t, order, cache, cacheT, orders);
    own.CacheWhole(cache, order.Price);
  }

  /** What a cached level says about the best price of a side. */
  lemma BestCached(t: Trie, cache: PriceLevel?)
    requires SideOk(t) && t.CacheOk(cache)
    ensures cache == null ==> Occupied(SideView(t)) == {}
    ensures cache != null && cache.TotalVolume > 0 ==>
      Occupied(SideView(t)) != {} && BestPrice(t.side, SideView(t)) == cache.Price
    ensures cache != null && cache.TotalVolume == 0 && Occupied(SideView(t)) != {} ==>
      Better(t.side, cache.Price, BestPrice(t.side, SideView(t)))
  {
    hide PriceLevel.Valid, Trie.Valid, Flat;
    forall p | p in SideView(t) ensures Flat(SideView(t)[p]) == [] <==> t.levels[p].TotalVolume == 0 {
      t.levels[p].VolumeFacts();
    }
    if cache != null && cache.TotalVolume > 0 {
      assert Flat(SideView(t)[cache.Price]) != [];
      assert cache.Price in Occupied(SideView(t));
      var best := BestPrice(t.side, SideView(t));
      assert best in Occupied(SideView(t)) && (best == cache.Price || Better(t.side, best, cache.Price));
    }
  }
}
