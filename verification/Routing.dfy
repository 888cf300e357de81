/** Which worker a transaction goes to. */
module Routing {
  import opened Words

  /** The remainder of a division that truncates: it has the sign of the dividend. */
  function Rem(a: int, b: int): int
    requires b != 0
  {
    if a >= 0 then a % b else -(-a % b)
  }

  datatype TxRouter = TxRouter(systemMaxUID: U64, manualRoutes: map<U64, int>, numWorkers: int) {
    function Route(uid: U64): int
      requires uid in manualRoutes ==> numWorkers != 0
    {
      if uid in manualRoutes then Rem(manualRoutes[uid], numWorkers)
      else if uid <= systemMaxUID then 0
      else if numWorkers <= 1 then 0
      else 1 + uid % (numWorkers - 1)
    }

    /** The route is the number of a worker unless a negative one was configured by hand. */
    lemma RouteInRange(uid: U64)
      requires numWorkers >= 1
      ensures 0 <= Route(uid) < numWorkers <==>
              (uid in manualRoutes ==> manualRoutes[uid] >= 0 || manualRoutes[uid] % numWorkers == 0)
    {
      if uid in manualRoutes && manualRoutes[uid] < 0 { NegatedRemainder(manualRoutes[uid], numWorkers); }
    }

    /** A route set by hand is wrapped around into the range of the workers, and keeps its sign. */
    lemma ManualRoute(uid: U64)
      requires uid in manualRoutes && numWorkers >= 1
      ensures var wanted, w := manualRoutes[uid], Route(uid);
        -numWorkers < w < numWorkers && (wanted - w) % numWorkers == 0 &&
        (wanted >= 0 ==> w >= 0) && (wanted <= 0 ==> w <= 0)
    {
      Wrapped(manualRoutes[uid], numWorkers);
    }

    /** Whom worker w serves, where no route was set by hand: worker 0 the system users, and everybody when there is no
        other; any other worker every (numWorkers - 1)-th ordinary user. */
    lemma Serves(uid: U64, w: nat)
      requires uid !in manualRoutes && w < numWorkers
      ensures Route(uid) == w <==>
        if w == 0 then uid <= systemMaxUID || numWorkers == 1
        else uid > systemMaxUID && (uid - (w - 1)) % (numWorkers - 1) == 0
    {
      if w > 0 { Congruent(uid, w - 1, numWorkers - 1); }
    }

    /** Without manual routes worker 0 is for system users alone, and the others are shared evenly. */
    lemma RouteClasses(uid: U64, other: U64)
      requires numWorkers >= 2 && uid !in manualRoutes && other !in manualRoutes
      ensures Route(uid) == 0 <==> uid <= systemMaxUID
      ensures uid > systemMaxUID && other > systemMaxUID ==>
              (Route(uid) == Route(other) <==> (uid - other) % (numWorkers - 1) == 0)
    {
      SameRemainder(uid, other, numWorkers - 1);
    }
  }

  datatype ExecutionRouter = ExecutionRouter(systemMaxUID: U64, dedicatedCount: U32, generalWorkers: U32) {
    predicate Dedicated(marketID: U32) {
      marketID > 0 && marketID <= dedicatedCount
    }

    function Workers(): nat {
      1 + dedicatedCount + generalWorkers
    }

    function Route(uid: U64, marketID: U32): (w: nat)
      ensures w < Workers()
    {
      if uid <= systemMaxUID then 0
      else if Dedicated(marketID) then marketID
      else if generalWorkers == 0 then 0
      else 1 + dedicatedCount + Rem(marketID, generalWorkers)
    }

    /** Whom executor w serves: executor 0 the system users, whatever they trade, and the small markets when nobody else
        is there for them; the next ones one market of the ordinary users each, by its number; the others the small
        markets in turn. */
    lemma Serves(uid: U64, marketID: U32, w: nat)
      requires w < Workers()
      ensures Route(uid, marketID) == w <==>
        var small := marketID == 0 || marketID > dedicatedCount;
        if w == 0 then uid <= systemMaxUID || (small && generalWorkers == 0)
        else if w <= dedicatedCount then uid > systemMaxUID && marketID == w
        else uid > systemMaxUID && small && (marketID - (w - 1 - dedicatedCount)) % generalWorkers == 0
    {
      if w > dedicatedCount { Congruent(marketID, w - 1 - dedicatedCount, generalWorkers); }
    }

    /** A dedicated worker serves one market, whoever trades it; two markets of ordinary users meet on a worker only in
        the shared pool. */
    lemma RouteClasses(uid: U64, marketID: U32, otherUid: U64, otherMarket: U32)
      requires uid > systemMaxUID && otherUid > systemMaxUID
      ensures 1 <= Route(uid, marketID) <= dedicatedCount <==> Dedicated(marketID)
      ensures Route(uid, marketID) == 0 <==> !Dedicated(marketID) && generalWorkers == 0
      ensures Route(uid, marketID) == Route(otherUid, otherMarket) <==>
              marketID == otherMarket ||
              (!Dedicated(marketID) && !Dedicated(otherMarket) &&
               (generalWorkers == 0 || (marketID - otherMarket) % generalWorkers == 0))
    {
      if generalWorkers > 0 { SameRemainder(marketID, otherMarket, generalWorkers); }
    }
  }

  lemma NegatedRemainder(a: int, m: nat)
    requires a < 0 < m
    ensures -a % m == 0 <==> a % m == 0
  {
    var q, r := a / m, a % m;
    var p, s := -a / m, -a % m;
    assert a == q * m + r && -a == p * m + s;
    Multiples(q + p, m, -(r + s));
  }

  lemma Wrapped(a: int, m: int)
    requires m > 0
    ensures -m < Rem(a, m) < m && (a - Rem(a, m)) % m == 0
    ensures (a >= 0 ==> Rem(a, m) >= 0) && (a <= 0 ==> Rem(a, m) <= 0)
  {
    var b := if a >= 0 then a else -a;
    SameRemainder(b, b % m, m);
    Whole(b % m, m);
    if a < 0 && b != b % m { NegatedRemainder(a - Rem(a, m), m); }
  }

  lemma Whole(r: nat, m: nat)
    requires r < m
    ensures r % m == r
  {
  }

  /** What leaves remainder r. */
  lemma Congruent(a: nat, r: nat, m: nat)
    requires r < m
    ensures a % m == r <==> (a - r) % m == 0
  {
    SameRemainder(a, r, m);
    Whole(r, m);
  }

  lemma SameRemainder(a: nat, b: nat, m: nat)
    requires m > 0
    ensures a % m == b % m <==> (a - b) % m == 0
  {
    var d := (a - b) / m;
    assert a == a / m * m + a % m && b == b / m * m + b % m && a - b == d * m + (a - b) % m;
    Spread(a / m, b / m, d, m);
    Multiples(a / m - b / m - d, m, (a - b) % m - (a % m - b % m));
  }

  lemma Spread(x: int, y: int, z: int, m: int)
    ensures (x - y - z) * m == x * m - y * m - z * m
  {
  }

  /** A multiple of m this close to zero is zero. */
  lemma Multiples(k: int, m: int, x: int)
    requires k * m == x && m > 0
    ensures -m < x < m ==> x == 0
    ensures x == 0 ==> k == 0
  {
    if k >= 1 { assert k * m >= m; } else if k <= -1 { assert k * m <= -m; }
  }
}
