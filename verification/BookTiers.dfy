/** Who stands where: the slots of a level by kind of trader, and what joining, leaving and changing does to the
    queues.
 */
module BookTiers {
  import opened Words
  import opened MatchSpec
  import opened BookSpec
  import opened BookSides
  import opened BookLaws

  /** Slot 1 for the traders below 100, slot 2 for orders below 1000 of the others, and one of 3 to 14 for the rest, by
      the trader's remainder modulo 12. */
  predicate Fits(o: OrderV) {
    && (o.slot == 1 <==> o.trader < 100)
    && (o.slot == 2 <==> o.trader >= 100 && o.size < 1000)
    && (o.trader >= 100 && o.size >= 1000 ==> 3 <= o.slot <= 14 && o.slot - 3 == o.trader % 12)
  }

  ghost predicate InTiers(v: SideV) {
    forall p, s, o :: p in v && 0 <= s < 16 && o in v[p][s] ==> Fits(o)
  }

  /** Traders below 100, then small orders, then all others. */
  function Tier(o: OrderV): nat {
    if o.trader < 100 then 0 else if o.size < 1000 then 1 else 2
  }

  /** At one price a taker meets the tiers one after the other. */
  lemma TiersInTurn(book: Side, v: SideV, limit: U64)
    requires Priced(v) && InTiers(v)
    ensures var q := FlatSide(book, v, limit);
            forall i, j :: 0 <= i < j < |q| && q[i].price == q[j].price ==> Tier(q[i]) <= Tier(q[j])
  {
    hide FlatSide, At;
    var q := FlatSide(book, v, limit);
    SideRead(book, v, limit);
    forall i | 0 <= i < |q| ensures Fits(q[i]) {
      QueueFits(book, v, limit, i);
    }
    assert forall i, j :: 0 <= i < j < |q| ==> Before(book, q[i], q[j]);
  }

  lemma QueueFits(book: Side, v: SideV, limit: U64, i: nat)
    requires Priced(v) && InTiers(v) && i < |FlatSide(book, v, limit)|
    ensures Fits(FlatSide(book, v, limit)[i])
  {
    hide FlatSide, At, Fits, Before;
    var q := FlatSide(book, v, limit);
    SideRead(book, v, limit);
    AtHas(q, i);
    assert q[i] in v[q[i].price][q[i].slot];
  }

  lemma {:induction false} AtHas(q: Queue, i: nat)
    requires i < |q|
    ensures q[i] in At(q, q[i].price, q[i].slot)
  {
    if i > 0 {
      AtHas(q[1..], i - 1);
    }
  }

  lemma {:induction false} AtFrom(q: Queue, p: U64, s: nat, o: OrderV)
    requires o in At(q, p, s)
    ensures o in q
  {
    if q[0].price != p || q[0].slot != s || o != q[0] {
      AtFrom(q[1..], p, s, o);
    }
  }

  /** Trading moves nobody to another tier. */
  lemma TiersTraded(book: Side, limit: U64, v0: SideV, v: SideV, a: Snap, b: Snap)
    requires Executed(book, limit, v0, v, a, b) && Priced(v0) && Priced(v) && InTiers(v0)
    ensures InTiers(v)
  {
    hide FlatSide, FillQueue, Ran, Fits, Priced, At, Before;
    PriceTimePriority(book, limit, v0, v, a, b);
    SideRead(book, v, limit);
    var q := FlatSide(book, v, limit);
    forall p, s, o | p in v && 0 <= s < 16 && o in v[p][s] ensures Fits(o) {
      if Within(book, p, limit) {
        assert p in Offered(book, v, limit);
        AtFrom(q, p, s, o);
        var i :| 0 <= i < |q| && q[i] == o;
        BehindFits(book, limit, v0, v, a, b, i);
      } else {
        assert v[p] == v0[p];
      }
    }
  }

  lemma BehindFits(book: Side, limit: U64, v0: SideV, v: SideV, a: Snap, b: Snap, i: nat)
    requires ByPriority(book, limit, v0, v, a, b) && Priced(v0) && InTiers(v0) && i < |FlatSide(book, v, limit)|
    ensures Fits(FlatSide(book, v, limit)[i])
  {
    hide FlatSide, Priced, InTiers, ReadOut, MetInTurn, AnyPartial, TradedSize;
    var q, trades := FlatSide(book, v0, limit), b.trades[|a.trades|..];
    var n, rest := |trades|, Behind(q, trades);
    if n > 0 && trades[n - 1].Size < q[n - 1].Remaining() {
      if i == 0 {
        QueueFits(book, v0, limit, n - 1);
      } else {
        QueueFits(book, v0, limit, n + i - 1);
        assert rest[i] == q[n + i - 1];
      }
    } else {
      QueueFits(book, v0, limit, n + i);
    }
  }

  // ---------------------------------------------------------------- joining, leaving, changing

  /** The queue at a price and in a slot. */
  function QueueAt(v: SideV, p: U64, s: nat): Queue {
    if p in v && s < 16 then v[p][s] else []
  }

  ghost predicate SameElsewhere(v: SideV, v': SideV, p: U64, s: nat) {
    forall p', s' :: p' != p || s' != s ==> QueueAt(v', p', s') == QueueAt(v, p', s')
  }

  /** The order stands behind all who were at its price and in its slot. */
  ghost predicate JoinsBack(v: SideV, v': SideV, o: OrderV) {
    && QueueAt(v', o.price, o.slot) == QueueAt(v, o.price, o.slot) + [o]
    && SameElsewhere(v, v', o.price, o.slot)
  }

  /** The first place with the order's id. */
  predicate PlaceOf(q: Queue, id: U64, i: nat) {
    i < |q| && q[i].id == id && forall j :: 0 <= j < i ==> q[j].id != id
  }

  /** The order at place i leaves, and the others keep their order. */
  ghost predicate LeavesFrom(v: SideV, v': SideV, p: U64, s: nat, i: nat)
    requires i < |QueueAt(v, p, s)|
  {
    && QueueAt(v', p, s) == QueueAt(v, p, s)[..i] + QueueAt(v, p, s)[i + 1..]
    && SameElsewhere(v, v', p, s)
  }

  /** The order at place i becomes o and keeps its place. */
  ghost predicate KeepsPlace(v: SideV, v': SideV, o: OrderV, i: nat)
    requires i < |QueueAt(v, o.price, o.slot)|
  {
    && QueueAt(v', o.price, o.slot) == QueueAt(v, o.price, o.slot)[i := o]
    && SameElsewhere(v, v', o.price, o.slot)
  }

  /** The order o leaves its queue. */
  ghost predicate Left(v: SideV, v': SideV, o: OrderV) {
    exists i: nat :: PlaceOf(QueueAt(v, o.price, o.slot), o.id, i) && QueueAt(v, o.price, o.slot)[i] == o
                && LeavesFrom(v, v', o.price, o.slot, i)
  }

  /** The order o becomes o': it is gone when nothing of it remains, keeps its place when price and slot stay, and
      otherwise stands behind all who are at its new price and in its new slot. */
  ghost predicate Changes(v: SideV, v': SideV, o: OrderV, o': OrderV) {
    if o'.Remaining() == 0 then Left(v, v', o)
    else if o'.price == o.price && o'.slot == o.slot
    then exists i: nat :: PlaceOf(QueueAt(v, o.price, o.slot), o.id, i) && QueueAt(v, o.price, o.slot)[i] == o
                     && KeepsPlace(v, v', o', i)
    else exists w :: Left(v, w, o) && JoinsBack(w, v', o')
  }

  /** o stands in its queue, and nobody else there has its id. */
  ghost predicate Stands(v: SideV, o: OrderV) {
    && o in QueueAt(v, o.price, o.slot)
    && forall x :: x in QueueAt(v, o.price, o.slot) && x.id == o.id ==> x == o
  }

  lemma {:induction false} FirstPlace(q: Queue, o: OrderV) returns (i: nat)
    requires o in q && forall x :: x in q && x.id == o.id ==> x == o
    ensures PlaceOf(q, o.id, i) && q[i] == o
  {
    if q[0].id == o.id {
      i := 0;
    } else {
      i := FirstPlace(q[1..], o);
      i := i + 1;
      assert forall j :: 0 < j < i ==> q[j] == q[1..][j - 1];
    }
  }

  lemma WithoutLeft(v: SideV, o: OrderV)
    requires Stands(v, o)
    ensures Left(v, Without(v, o), o)
  {
    hide Without;
    var i := FirstPlace(QueueAt(v, o.price, o.slot), o);
    WithoutLeaves(v, o, i);
  }

  lemma ReplacedChanges(v: SideV, o: OrderV, o': OrderV)
    requires Stands(v, o) && o'.price == o.price && o'.slot == o.slot && o'.id == o.id && o'.Remaining() > 0
    ensures Changes(v, Replaced(v, o'), o, o')
  {
    hide Replaced, KeepsPlace;
    var i := FirstPlace(QueueAt(v, o.price, o.slot), o);
    ReplacedKeeps(v, o', i);
  }

  lemma PlacedBack(v: SideV, o: OrderV)
    requires o.slot < 16
    ensures JoinsBack(v, Placed(v, o), o)
  {
  }

  lemma WithoutLeaves(v: SideV, o: OrderV, i: nat)
    requires PlaceOf(QueueAt(v, o.price, o.slot), o.id, i)
    ensures LeavesFrom(v, Without(v, o), o.price, o.slot, i)
  {
    hide DropId;
    DropAt(QueueAt(v, o.price, o.slot), o.id, i);
  }

  lemma ReplacedKeeps(v: SideV, o: OrderV, i: nat)
    requires PlaceOf(QueueAt(v, o.price, o.slot), o.id, i)
    ensures KeepsPlace(v, Replaced(v, o), o, i)
  {
    hide PutId;
    PutAt(QueueAt(v, o.price, o.slot), o, i);
  }

  lemma TiersPlaced(v: SideV, o: OrderV)
    requires InTiers(v) && Fits(o)
    ensures InTiers(Placed(v, o))
  {
    hide Fits;
    var w := Placed(v, o);
    forall p, s, x | p in w && 0 <= s < 16 && x in w[p][s] ensures Fits(x) {
      if p in v && x in v[p][s] {} else { assert EMPTY_LEVEL[s] == []; }
    }
  }

  lemma {:induction false} DropFrom(q: Queue, id: U64, o: OrderV)
    requires o in DropId(q, id)
    ensures o in q
  {
    if q[0].id != id && o != q[0] { DropFrom(q[1..], id, o); }
  }

  lemma TiersWithout(v: SideV, o: OrderV)
    requires InTiers(v)
    ensures InTiers(Without(v, o))
  {
    hide Fits, DropId;
    var w := Without(v, o);
    forall p, s, x | p in w && 0 <= s < 16 && x in w[p][s] ensures Fits(x) {
      if x !in v[p][s] { DropFrom(v[p][s], o.id, x); }
    }
  }

  lemma TiersKept(v: SideV, o: OrderV)
    ensures InTiers(v) ==> InTiers(Without(v, o))
  {
    if InTiers(v) { TiersWithout(v, o); }
  }

  lemma {:induction false} PutFrom(q: Queue, o: OrderV, x: OrderV)
    requires x in PutId(q, o)
    ensures x in q || x == o
  {
    if q[0].id != o.id && x != q[0] { PutFrom(q[1..], o, x); }
  }

  lemma TiersReplaced(v: SideV, o: OrderV)
    requires InTiers(v) && Fits(o)
    ensures InTiers(Replaced(v, o))
  {
    hide Fits, PutId;
    var w := Replaced(v, o);
    forall p, s, x | p in w && 0 <= s < 16 && x in w[p][s] ensures Fits(x) {
      if x !in v[p][s] { PutFrom(v[p][s], o, x); }
    }
  }

  /** A taker trades, and what is left of it rests. */
  lemma TiersAdded(book: Side, limit: U64, own: SideV, v0: SideV, own': SideV, v: SideV, a: Snap, b: Snap)
    requires Executed(book, limit, v0, v, a, b) && Priced(v0) && Priced(v)
    requires own' == own || (own' == Placed(own, b.taker) && Fits(a.taker))
    ensures InTiers(own) && InTiers(v0) ==> InTiers(own') && InTiers(v)
  {
    hide InTiers, Priced, Placed, FillQueue, FlatSide;
    if InTiers(own) && InTiers(v0) {
      TiersTraded(book, limit, v0, v, a, b);
      RanAmount(FillQueue(FlatSide(book, v0, limit), a.taker.Remaining()).fills, a, b);
      if own' != own { TiersPlaced(own, b.taker); }
    }
  }
}
