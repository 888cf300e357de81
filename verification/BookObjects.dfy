/** The mutable objects of the book: orders and price levels.

    A slot is embedded in its level; its orders are shared object references, which the
    book's index also holds.
 */
module BookObjects {
  import opened Words
  import opened MatchSpec

  class Order {
    var ID: U64
    var TraderID: U32
    var Price: U64
    var Size: U64
    var FilledSize: U64
    var Side: Side
    var Slot: nat
    var IsPartialFill: bool

    /** An order from the pool, with nothing filled. */
    constructor (id: U64, trader: U32, price: U64, size: U64, side: Side, slot: nat)
      ensures View() == OrderV(id, trader, price, size, 0, side, slot, false)
    {
      ID, TraderID, Price, Size, FilledSize, Side, Slot, IsPartialFill := id, trader, price, size, 0, side, slot, false;
    }

    function View(): OrderV
      reads this
    {
      OrderV(ID, TraderID, Price, Size, FilledSize, Side, Slot, IsPartialFill)
    }

    function RemainingSize(): (n: U64)
      reads this
      ensures n == View().Remaining()
    {
      if FilledSize >= Size then 0 else Size - FilledSize
    }

    predicate IsFilled()
      reads this
      ensures IsFilled() <==> RemainingSize() == 0
    {
      FilledSize >= Size
    }

    /** `FilledSize += size`, and whether the order is still open after it. */
    method Fill(size: U64) returns (stillOpen: bool)
      requires size <= RemainingSize()
      modifies this`FilledSize, this`IsPartialFill
      ensures stillOpen <==> size < old(RemainingSize())
      ensures View() == old(View()).(filled := old(FilledSize) + size, partial := old(IsPartialFill) || stillOpen)
    {
      FilledSize := FilledSize + size;
      stillOpen := !IsFilled();
      if stillOpen {
        IsPartialFill := true;
      }
    }

    /** A new price, size and slot. */
    method Amend(price: U64, size: U64, slot: nat)
      modifies this`Price, this`Size, this`Slot
      ensures View() == old(View()).(price := price, size := size, slot := slot)
    {
      Price, Size, Slot := price, size, slot;
    }

    /** `putOrderToPool`: the object is zeroed, and whoever still holds it sees zeros. */
    method Clear()
      modifies this
      ensures View() == OrderV(0, 0, 0, 0, 0, BUY, 0, false)
    {
      ID, TraderID, Price, Size, FilledSize, Side, Slot, IsPartialFill := 0, 0, 0, 0, 0, BUY, 0, false;
    }
  }

  datatype Slot = Slot(Orders: seq<Order>, Volume: U64)

  function SafeSubtract(from: U64, value: U64): U64 {
    if value > from then 0 else from - value
  }

  function SafeAdd(a: U64, b: U64): U64 {
    if a > U64_MAX - b then U64_MAX else a + b
  }

  ghost function QueueOf(os: seq<Order>): (q: Queue)
    reads os
    ensures |q| == |os| && forall i :: 0 <= i < |os| ==> q[i] == os[i].View()
  {
    if os == [] then [] else [os[0].View()] + QueueOf(os[1..])
  }

  ghost function Queues(slots: seq<Slot>): (v: seq<Queue>)
    reads OrdersOf(slots)
    ensures |v| == |slots| && forall i :: 0 <= i < |slots| ==> v[i] == QueueOf(slots[i].Orders)
  {
    if slots == [] then [] else [QueueOf(slots[0].Orders)] + Queues(slots[1..])
  }

  ghost function OrdersOf(slots: seq<Slot>): set<Order> {
    if slots == [] then {} else (set o | o in slots[0].Orders) + OrdersOf(slots[1..])
  }

  lemma {:induction false} InOrdersOf(slots: seq<Slot>, all: set<Order>)
    requires forall s :: 0 <= s < |slots| ==> forall o :: o in slots[s].Orders ==> o in all
    ensures OrdersOf(slots) <= all
  {
    if slots != [] { InOrdersOf(slots[1..], all); }
  }

  function SumVolumes(slots: seq<Slot>): nat {
    if slots == [] then 0 else slots[0].Volume + SumVolumes(slots[1..])
  }

  lemma {:induction false} SumVolumesUpdate(slots: seq<Slot>, s: nat, x: Slot)
    requires s < |slots|
    ensures SumVolumes(slots[s := x]) == SumVolumes(slots) - slots[s].Volume + x.Volume
    ensures slots[s].Volume <= SumVolumes(slots)
  {
    if s > 0 {
      assert slots[s := x][1..] == slots[1..][s - 1 := x];
      SumVolumesUpdate(slots[1..], s - 1, x);
    }
  }

  lemma {:induction false} SumWithout(q: Queue, i: nat)
    requires i < |q|
    ensures Sum(q) == Sum(q[..i] + q[i + 1..]) + q[i].Remaining()
  {
    if i == 0 {
      assert q[..0] + q[1..] == q[1..];
    } else {
      SumWithout(q[1..], i - 1);
      assert (q[..i] + q[i + 1..])[1..] == q[1..][..i - 1] + q[1..][i..];
    }
  }

  /** A slot holds distinct live orders of its own price, side and index, and its volume is what remains of them. */
  ghost predicate SlotOk(slot: Slot, s: nat, price: U64, side: Side)
    reads slot.Orders
  {
    && (forall o :: o in slot.Orders ==> o.Slot == s && o.Price == price && o.Side == side && !o.IsFilled())
    && (forall i, j :: 0 <= i < j < |slot.Orders| ==> slot.Orders[i] != slot.Orders[j])
    && slot.Volume == Sum(QueueOf(slot.Orders))
  }

  lemma AppendSlot(slot: Slot, s: nat, price: U64, side: Side, order: Order)
    requires SlotOk(slot, s, price, side) && order !in slot.Orders
    requires order.Slot == s && order.Price == price && order.Side == side && !order.IsFilled()
    requires slot.Volume + order.RemainingSize() <= U64_MAX
    ensures SlotOk(Slot(slot.Orders + [order], SafeAdd(slot.Volume, order.RemainingSize())), s, price, side)
    ensures QueueOf(slot.Orders + [order]) == QueueOf(slot.Orders) + [order.View()]
  {
    assert QueueOf(slot.Orders + [order]) == QueueOf(slot.Orders) + [order.View()];
    SumAppend(QueueOf(slot.Orders), [order.View()]);
  }

  lemma RemoveSlot(slot: Slot, s: nat, price: U64, side: Side, i: nat)
    requires SlotOk(slot, s, price, side) && i < |slot.Orders|
    ensures slot.Orders[i].RemainingSize() <= slot.Volume
    ensures var os := slot.Orders[..i] + slot.Orders[i + 1..];
            && SlotOk(Slot(os, SafeSubtract(slot.Volume, slot.Orders[i].RemainingSize())), s, price, side)
            && slot.Orders[i] !in os && (forall o :: o in slot.Orders && o != slot.Orders[i] ==> o in os)
            && QueueOf(os) == QueueOf(slot.Orders)[..i] + QueueOf(slot.Orders)[i + 1..]
  {
    hide Sum, QueueOf;
    var os, q := slot.Orders[..i] + slot.Orders[i + 1..], QueueOf(slot.Orders);
    assert QueueOf(os) == q[..i] + q[i + 1..];
    SumWithout(q, i);
    assert q[i].Remaining() == slot.Orders[i].RemainingSize();
  }

  lemma SlotSums(slot: Slot, s: nat, price: U64, side: Side, i: nat)
    requires SlotOk(slot, s, price, side) && i < |slot.Orders|
    ensures slot.Orders[i].RemainingSize() <= slot.Volume
  {
    SumWithout(QueueOf(slot.Orders), i);
  }

  lemma SumResized(q: Queue, i: nat, o: OrderV)
    requires i < |q|
    ensures Sum(q[i := o]) == Sum(q) - q[i].Remaining() + o.Remaining()
  {
    SumWithout(q, i);
    SumWithout(q[i := o], i);
    assert q[i := o][..i] + q[i := o][i + 1..] == q[..i] + q[i + 1..];
  }

  /** A slot after one of its orders changed its size. */
  twostate lemma ResizedSlot(slot: Slot, new volume: U64, new s: nat, new price: U64, new side: Side, new i: nat)
    requires old(SlotOk(slot, s, price, side)) && i < |slot.Orders|
    requires forall j :: 0 <= j < |slot.Orders| && j != i ==> slot.Orders[j].View() == old(slot.Orders[j].View())
    requires slot.Orders[i].View() == old(slot.Orders[i].View()).(size := slot.Orders[i].Size)
    requires !slot.Orders[i].IsFilled()
    requires volume == slot.Volume - old(slot.Orders[i].RemainingSize()) + slot.Orders[i].RemainingSize()
    ensures SlotOk(Slot(slot.Orders, volume), s, price, side)
    ensures QueueOf(slot.Orders) == old(QueueOf(slot.Orders))[i := slot.Orders[i].View()]
  {
    hide Sum, QueueOf;
    assert QueueOf(slot.Orders) == old(QueueOf(slot.Orders))[i := slot.Orders[i].View()];
    SumResized(old(QueueOf(slot.Orders)), i, slot.Orders[i].View());
    forall o | o in slot.Orders ensures o.Slot == s && o.Price == price && o.Side == side && !o.IsFilled() {
      var j :| 0 <= j < |slot.Orders| && slot.Orders[j] == o;
      if j != i { assert o.View() == old(o.View()); }
    }
  }

  /** One execution of size `take` against the first order of a slot. */
  method ExecuteSlot(slot: Slot, s: nat, take: U64, ghost price: U64, ghost side: Side)
    returns (slot': Slot, maker: Order, done: bool)
    requires SlotOk(slot, s, price, side) && slot.Orders != []
    requires 0 < take <= slot.Orders[0].RemainingSize()
    modifies slot.Orders[0]
    ensures SlotOk(slot', s, price, side) && maker == slot.Orders[0] && take <= slot.Volume
    ensures slot'.Volume == slot.Volume - take && slot'.Orders == if done then slot.Orders[1..] else slot.Orders
    ensures done <==> take == old(maker.RemainingSize())
    ensures maker.View() == old(maker.View()).(filled := old(maker.FilledSize) + take, partial := !done
      || old(maker.IsPartialFill))
    ensures QueueOf(slot'.Orders) == AfterHead(old(QueueOf(slot.Orders)), take)
  {
    hide Sum, QueueOf;
    maker := slot.Orders[0];
    ghost var q := QueueOf(slot.Orders);
    SumAfterHead(q, take);
    var stillOpen := maker.Fill(take);
    done := !stillOpen;
    slot' := Slot(if done then slot.Orders[1..] else slot.Orders, SafeSubtract(slot.Volume, take));
    if done {
      assert QueueOf(slot'.Orders) == q[1..];
    } else {
      assert QueueOf(slot'.Orders) == [Reduced(q[0], take)] + q[1..];
    }
  }

  /** What one execution of size `take` leaves of a queue. */
  ghost function AfterHead(q: Queue, take: nat): Queue
    requires q != [] && take <= q[0].Remaining()
  {
    if take == q[0].Remaining() then q[1..] else [Reduced(q[0], take)] + q[1..]
  }

  lemma SumAfterHead(q: Queue, take: nat)
    requires q != [] && take <= q[0].Remaining()
    ensures Sum(AfterHead(q, take)) == Sum(q) - take
  {
  }

  class PriceLevel {
    const Price: U64
    var TotalVolume: U64
    var Slots: seq<Slot>

    ghost const side: Side
    /** The orders resting at this level. */
    ghost var Resting: set<Order>

    constructor (price: U64, ghost side: Side)
      ensures Valid() && Price == price && this.side == side && Resting == {} && TotalVolume == 0
    {
      Price, TotalVolume := price, 0;
      Slots := seq(WIDTH, _ => Slot([], 0));
      this.side := side;
      Resting := {};
      new;
      EmptySlots(Slots);
    }

    /** Exactly the resting orders are in the slots, each slot is sound, and volumes add up. */
    ghost predicate Valid()
      reads this, Resting
    {
      && |Slots| == WIDTH
      && (forall s :: 0 <= s < WIDTH ==> forall o :: o in Slots[s].Orders ==> o in Resting)
      && (forall s :: 0 <= s < WIDTH ==> SlotOk(Slots[s], s, Price, side))
      && (forall o :: o in Resting ==> o.Slot < WIDTH && o in Slots[o.Slot].Orders)
      && TotalVolume == SumVolumes(Slots)
    }

    ghost function View(): LevelV
      reads this, Resting
      requires Valid()
    {
      InOrdersOf(Slots, Resting);
      Queues(Slots)
    }

    lemma RestingPlaced()
      requires Valid()
      ensures forall o :: o in Resting ==> o.Side == side && o.Price == Price
    {
    }

    lemma ViewAt()
      requires Valid()
      ensures |Slots| == WIDTH && forall s :: 0 <= s < WIDTH ==> View()[s] == QueueOf(Slots[s].Orders)
    {
    }

    /** Changing one slot changes one queue. */
    twostate lemma ViewPut(s: nat)
      requires old(Valid()) && Valid() && s < WIDTH
      requires forall s' :: 0 <= s' < WIDTH && s' != s ==> QueueOf(Slots[s'].Orders) == old(QueueOf(Slots[s'].Orders))
      ensures View() == old(View())[s := QueueOf(Slots[s].Orders)]
    {
    }

    /** The level's total is what remains of its orders; it is zero exactly when none rest. */
    lemma VolumeFacts()
      requires Valid()
      ensures Live(Flat(View())) && Sum(Flat(View())) == TotalVolume
      ensures TotalVolume == 0 <==> Flat(View()) == []
    {
      hide QueueOf;
      FlatVolumes(Slots, View());
      LiveFlat(View());
    }

    lemma SlotFacts(s: nat)
      requires Valid() && s < WIDTH
      ensures |Slots| == WIDTH && Live(View()[s]) && (Slots[s].Orders == [] <==> View()[s] == [])
      ensures Slots[s].Orders == [] ==> Slots[s].Volume == 0
    {
    }

    lemma HeadFacts(s: nat)
      requires Valid() && s < WIDTH && Slots[s].Orders != []
      ensures var head := Slots[s].Orders[0];
              && head in Resting && !head.IsFilled() && head.Price == Price && head.Side == side && head.Slot == s
              && View()[s] != [] && View()[s][0] == head.View() && |Slots| == WIDTH
    {
    }

    lemma HeadElsewhere(s: nat)
      requires Valid() && s < WIDTH && Slots[s].Orders != []
      ensures var head := Slots[s].Orders[0];
              && (forall s' :: 0 <= s' < WIDTH && s' != s ==> head !in Slots[s'].Orders)
              && (forall o :: o in Slots[s].Orders && o != head ==> o in Slots[s].Orders[1..])
              && head !in Slots[s].Orders[1..] && head.Slot == s
    {
    }

    /** Installing a changed slot. */
    method PutSlot(s: nat, slot: Slot, total: U64, ghost resting: set<Order>)
      requires s < WIDTH && |Slots| == WIDTH
      requires forall s' :: 0 <= s' < WIDTH && s' != s ==> SlotOk(Slots[s'], s', Price, side)
      requires SlotOk(slot, s, Price, side)
      requires forall s' :: 0 <= s' < WIDTH && s' != s ==> forall o :: o in Slots[s'].Orders ==> o in resting
      requires forall o :: o in slot.Orders ==> o in resting
      requires forall o :: o in resting ==>
                 o.Slot < WIDTH && (if o.Slot == s then o in slot.Orders else o in Slots[o.Slot].Orders)
      requires total == SumVolumes(Slots) - Slots[s].Volume + slot.Volume
      modifies this
      ensures Valid() && Resting == resting && TotalVolume == total
      ensures Slots == old(Slots)[s := slot]
    {
      SumVolumesUpdate(Slots, s, slot);
      Slots, TotalVolume, Resting := Slots[s := slot], total, resting;
    }

    method Append(order: Order)
      requires Valid() && order !in Resting
      requires order.Slot < WIDTH && order.Price == Price && order.Side == side && !order.IsFilled()
      requires TotalVolume + order.RemainingSize() <= U64_MAX
      modifies this
      ensures Valid() && Resting == old(Resting) + {order}
      ensures TotalVolume == old(TotalVolume) + order.RemainingSize()
      ensures View() == old(View())[order.Slot := old(View())[order.Slot] + [order.View()]]
    {
      hide QueueOf, Sum, SumVolumes, Queues;
      ViewAt();
      var remainingSize := order.RemainingSize();
      var slot := Slots[order.Slot];
      SumVolumesUpdate(Slots, order.Slot, slot);
      AppendSlot(slot, order.Slot, Price, side, order);
      PutSlot(order.Slot, Slot(slot.Orders + [order], SafeAdd(slot.Volume, remainingSize)),
              SafeAdd(TotalVolume, remainingSize), Resting + {order});
      ViewPut(order.Slot);
    }

    /** `append(slot.Orders[:i], slot.Orders[i+1:]...)` with the two volumes lowered. */
    method RemoveAt(s: nat, i: nat)
      requires Valid() && s < WIDTH && i < |Slots[s].Orders|
      modifies this
      ensures Valid() && Resting == old(Resting) - {old(Slots[s].Orders[i])}
      ensures TotalVolume == old(TotalVolume) - old(Slots[s].Orders[i]).RemainingSize()
      ensures View() == old(View())[s := old(View())[s][..i] + old(View())[s][i + 1..]]
    {
      hide QueueOf, Sum, SumVolumes, Queues;
      ViewAt();
      var slot := Slots[s];
      var order := slot.Orders[i];
      var remainingSize := order.RemainingSize();
      RemoveSlot(slot, s, Price, side, i);
      SumVolumesUpdate(Slots, s, slot);
      PutSlot(s, Slot(slot.Orders[..i] + slot.Orders[i + 1..], SafeSubtract(slot.Volume, remainingSize)),
              SafeSubtract(TotalVolume, remainingSize), Resting - {order});
      ViewPut(s);
    }

    /** A resting order changes its size and keeps its place: both volumes drop by what remained and grow by what
        remains. */
    method ResizeAt(s: nat, i: nat, newSize: U64)
      requires Valid() && s < WIDTH && i < |Slots[s].Orders|
      requires Slots[s].Orders[i].FilledSize < newSize
      requires TotalVolume - Slots[s].Orders[i].RemainingSize() + (newSize - Slots[s].Orders[i].FilledSize) <= U64_MAX
      modifies this, Slots[s].Orders[i]
      ensures Valid() && Resting == old(Resting)
      ensures var order := old(Slots[s].Orders[i]);
              && order.View() == old(order.View()).(size := newSize)
              && TotalVolume == old(TotalVolume) - old(order.RemainingSize()) + order.RemainingSize()
              && View() == old(View())[s := old(View())[s][i := order.View()]]
    {
      hide QueueOf, SlotOk, SumVolumes, Queues;
      ViewAt();
      var slot := Slots[s];
      var order := slot.Orders[i];
      var oldRemaining := order.RemainingSize();
      SumVolumesUpdate(Slots, s, slot);
      SlotSums(slot, s, Price, side, i);
      PlaceFacts(s, i);
      var volume, total := SafeSubtract(slot.Volume, oldRemaining), SafeSubtract(TotalVolume, oldRemaining);
      order.Size := newSize;
      var newRemaining := order.RemainingSize();
      volume, total := SafeAdd(volume, newRemaining), SafeAdd(total, newRemaining);
      ResizedSlot(slot, volume, s, Price, side, i);
      assert forall s' :: 0 <= s' < WIDTH && s' != s ==>
          SlotOk(Slots[s'], s', Price, side) && QueueOf(Slots[s'].Orders) == old(QueueOf(Slots[s'].Orders));
      PutSlot(s, Slot(slot.Orders, volume), total, Resting);
      ViewPut(s);
    }

    /** An order rests in one slot, at one place. */
    lemma PlaceFacts(s: nat, i: nat)
      requires Valid() && s < WIDTH && i < |Slots[s].Orders|
      ensures |Slots| == WIDTH && Slots[s].Orders[i] in Resting && Slots[s].Orders[i].Slot == s
        && !Slots[s].Orders[i].IsFilled()
      ensures forall s' :: 0 <= s' < WIDTH && s' != s ==> Slots[s].Orders[i] !in Slots[s'].Orders
      ensures forall j :: 0 <= j < |Slots[s].Orders| && j != i ==> Slots[s].Orders[j] != Slots[s].Orders[i]
    {
    }

    /** `if len(slot.Orders) == 0 { slot.Volume = 0 }` finds the volume already zero. */
    method ZeroIfEmpty(s: nat)
      requires Valid() && s < WIDTH
      modifies this`Slots
      ensures Slots == old(Slots)
    {
      SlotFacts(s);
      if Slots[s].Orders == [] {
        Slots := Slots[s := Slots[s].(Volume := 0)];
      }
    }

    /** One execution of size `take` against the first order of a slot. */
    method ExecuteHead(s: nat, take: U64) returns (maker: Order, done: bool)
      requires Valid() && s < WIDTH && Slots[s].Orders != []
      requires 0 < take <= Slots[s].Orders[0].RemainingSize()
      modifies this, Slots[s].Orders[0]
      ensures Valid() && maker == old(Slots[s].Orders[0])
      ensures TotalVolume == old(TotalVolume) - take
      ensures done <==> take == old(maker.RemainingSize())
      ensures Resting == if done then old(Resting) - {maker} else old(Resting)
      ensures maker.View() == old(maker.View()).(filled := old(maker.FilledSize) + take, partial := !done
        || old(maker.IsPartialFill))
      ensures View() == old(View())[s := AfterHead(old(View())[s], take)]
    {
      hide QueueOf, SlotOk, SumVolumes, Queues;
      ViewAt();
      var slot;
      SumVolumesUpdate(Slots, s, Slots[s]);
      HeadElsewhere(s);
      slot, maker, done := ExecuteSlot(Slots[s], s, take, Price, side);
      assert forall s' :: 0 <= s' < WIDTH && s' != s ==>
          SlotOk(Slots[s'], s', Price, side) && QueueOf(Slots[s'].Orders) == old(QueueOf(Slots[s'].Orders));
      PutSlot(s, slot, SafeSubtract(TotalVolume, take), if done then Resting - {maker} else Resting);
      ViewPut(s);
    }
  }

  lemma {:induction false} EmptySlots(slots: seq<Slot>)
    requires forall s :: 0 <= s < |slots| ==> slots[s] == Slot([], 0)
    ensures SumVolumes(slots) == 0
  {
    if slots != [] { EmptySlots(slots[1..]); }
  }

  lemma {:induction false} FlatVolumes(slots: seq<Slot>, v: seq<Queue>)
    requires |slots| == |v| && forall i :: 0 <= i < |v| ==> slots[i].Volume == Sum(v[i])
    ensures Sum(FlatTo(v)) == SumVolumes(slots)
  {
    if v != [] {
      FlatVolumes(slots[1..], v[1..]);
      assert v == [v[0]] + v[1..];
      FlatSplit([v[0]], v[1..]);
      assert [v[0]][..0] == [];
      assert FlatTo([v[0]]) == v[0];
      SumAppend(v[0], FlatTo(v[1..]));
    }
  }

  lemma {:induction false} LiveFlat(v: seq<Queue>)
    requires forall i :: 0 <= i < |v| ==> Live(v[i])
    ensures Live(FlatTo(v))
  {
    if v != [] { LiveFlat(v[..|v| - 1]); }
  }
}
