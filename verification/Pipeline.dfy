/** The proposer pipeline as a state machine: decoders, verifiers, one prepare worker per share of the users, and one
    executor per market class, over channels.

    Decoders and verifiers run side by side, so what they hold and what waits for them are bags from which any
    transaction may come next.  The channels behind them are queues.  A prepare worker is interrupted by the other
    goroutines before every send and every store.
 */
module Pipeline {
  import opened Words
  import opened NonceOrder
  import opened PrepareQueue
  import opened Routing

  /** The users' nonces at the start, and the routers. */
  datatype Config = Config(init: seq<U64>, txRouter: TxRouter, execRouter: ExecutionRouter) {
    /** Users are numbered from 1. */
    predicate User(uid: U64) {
      1 <= uid <= |init|
    }

    predicate Valid() {
      txRouter.numWorkers >= 1 && forall uid :: User(uid) ==> 0 <= txRouter.Route(uid) < txRouter.numWorkers
    }
  }

  /** Where a prepare worker is: between jobs, before entry i of the user's buffer, or between the send of that entry
      and the store of its nonce. */
  datatype Phase = Idle | Draining(uid: U64, i: nat, expected: U64) | Storing(uid: U64, i: nat)

  datatype Worker = Worker(buffers: map<U64, seq<Tx>>, phase: Phase) {
    function Queue(uid: U64): seq<Tx> {
      if uid in buffers then buffers[uid] else []
    }
  }

  /** The channels, the stored nonces and the workers; what executors have done; and, for every user, the nonces that
      its prepare worker received and the transactions that it sent on. */
  datatype State = State(
    decoding: multiset<Tx>, verifying: multiset<Tx>,
    prepare: seq<seq<Tx>>, workers: seq<Worker>, nonces: seq<U64>,
    execution: seq<seq<Tx>>, executed: seq<seq<Tx>>,
    arrived: seq<seq<U64>>, dispatched: seq<seq<Tx>>,
    pushed: multiset<Tx>, dropped: multiset<Tx>)

  datatype Step =
    | Push(tx: Tx)                 // a message passes the first checks
    | Decode(tx: Tx)               // a decoder looks at a transaction and at its user's nonce
    | Verify(tx: Tx, valid: bool)  // a verifier checks the signature, and routes
    | Receive(w: nat)              // a prepare worker takes the next job
    | Send(w: nat)                 // it sends an entry to an executor
    | Store(w: nat)                // it stores the nonce of that entry
    | Finish(w: nat)               // it leaves the loop and shifts the buffer
    | Execute(e: nat)              // an executor takes the next transaction

  function Start(c: Config): State
    requires c.Valid()
  {
    State(multiset{}, multiset{},
          seq(c.txRouter.numWorkers, _ => []), seq(c.txRouter.numWorkers, _ => Worker(map[], Idle)), c.init,
          seq(c.execRouter.Workers(), _ => []), seq(c.execRouter.Workers(), _ => []),
          seq(|c.init|, _ => []), seq(|c.init|, _ => []),
          multiset{}, multiset{})
  }

  /** The dimensions of a state. */
  predicate Shape(c: Config, s: State) {
    c.Valid() && |s.prepare| == |s.workers| == c.txRouter.numWorkers &&
    |s.nonces| == |s.arrived| == |s.dispatched| == |c.init| &&
    |s.execution| == |s.executed| == c.execRouter.Workers() &&
    forall w :: 0 <= w < |s.workers| ==> PhaseShape(c, s.workers[w])
  }

  predicate PhaseShape(c: Config, k: Worker) {
    match k.phase
    case Idle => true
    case Draining(uid, i, _) => c.User(uid) && i <= |k.Queue(uid)|
    case Storing(uid, i) => c.User(uid) && i < |k.Queue(uid)|
  }

  /** Whether the loop over the buffer goes on. */
  predicate GoesOn(k: Worker) {
    k.phase.Draining? && k.phase.i < |k.Queue(k.phase.uid)| &&
    k.Queue(k.phase.uid)[k.phase.i].nonce >= k.phase.expected
  }

  predicate Enabled(c: Config, s: State, step: Step)
    requires Shape(c, s)
  {
    match step
    case Push(_) => true
    case Decode(tx) => tx in s.decoding
    case Verify(tx, _) => tx in s.verifying
    case Receive(w) => w < |s.workers| && s.workers[w].phase.Idle? && s.prepare[w] != []
    case Send(w) => w < |s.workers| && GoesOn(s.workers[w])
    case Store(w) => w < |s.workers| && s.workers[w].phase.Storing?
    case Finish(w) => w < |s.workers| && s.workers[w].phase.Draining? && !GoesOn(s.workers[w])
    case Execute(e) => e < |s.execution| && s.execution[e] != []
  }

  /** The decoder's checks: a known user, and a nonce above the stored one. */
  function DoDecode(c: Config, s: State, tx: Tx): State
    requires Shape(c, s)
  {
    var t := s.(decoding := s.decoding - multiset{tx});
    if !c.User(tx.uid) then t.(dropped := s.dropped + multiset{tx})
    else if tx.nonce <= s.nonces[tx.uid - 1] then t.(dropped := s.dropped + multiset{tx})
    else t.(verifying := s.verifying + multiset{tx})
  }

  function DoVerify(c: Config, s: State, tx: Tx, valid: bool): State
    requires Shape(c, s)
  {
    var t := s.(verifying := s.verifying - multiset{tx});
    if !c.User(tx.uid) || !valid then t.(dropped := s.dropped + multiset{tx})
    else
      var w := c.txRouter.Route(tx.uid);
      t.(prepare := s.prepare[w := s.prepare[w] + [tx]])
  }

  /** A job is dropped, or put into its user's buffer. */
  function DoReceive(c: Config, s: State, w: nat): State
    requires Shape(c, s) && w < |s.workers| && s.prepare[w] != []
  {
    var tx, k := s.prepare[w][0], s.workers[w];
    var t := s.(prepare := s.prepare[w := s.prepare[w][1..]]);
    if !c.User(tx.uid) then t.(dropped := s.dropped + multiset{tx})
    else
      var u, q := tx.uid - 1, k.Queue(tx.uid);
      var expected := Expected(s.nonces[u]);
      var t := t.(arrived := s.arrived[u := s.arrived[u] + [tx.nonce]]);
      if tx.nonce < expected || |q| >= MAX_PENDING then
        t.(workers := s.workers[w := k.(buffers := k.buffers[tx.uid := q])], dropped := s.dropped + multiset{tx})
      else
        t.(workers := s.workers[w := Worker(k.buffers[tx.uid := Insert(q, tx)], Draining(tx.uid, 0, expected))])
  }

  function DoSend(c: Config, s: State, w: nat): State
    requires Shape(c, s) && w < |s.workers| && GoesOn(s.workers[w])
  {
    var k := s.workers[w];
    var uid, i := k.phase.uid, k.phase.i;
    var tx := k.Queue(uid)[i];
    var e := c.execRouter.Route(tx.uid, tx.market);
    s.(execution := s.execution[e := s.execution[e] + [tx]],
       workers := s.workers[w := k.(phase := Storing(uid, i))],
       dispatched := s.dispatched[uid - 1 := s.dispatched[uid - 1] + [tx]])
  }

  function DoStore(c: Config, s: State, w: nat): State
    requires Shape(c, s) && w < |s.workers| && s.workers[w].phase.Storing?
  {
    var k := s.workers[w];
    var uid, i := k.phase.uid, k.phase.i;
    var n := k.Queue(uid)[i].nonce;
    s.(nonces := s.nonces[uid - 1 := n], workers := s.workers[w := k.(phase := Draining(uid, i + 1, n))])
  }

  function DoFinish(c: Config, s: State, w: nat): State
    requires Shape(c, s) && w < |s.workers| && s.workers[w].phase.Draining?
  {
    var k := s.workers[w];
    var uid := k.phase.uid;
    s.(workers := s.workers[w := Worker(k.buffers[uid := k.Queue(uid)[k.phase.i..]], Idle)])
  }

  function DoExecute(s: State, e: nat): State
    requires e < |s.execution| == |s.executed| && s.execution[e] != []
  {
    s.(execution := s.execution[e := s.execution[e][1..]],
      executed := s.executed[e := s.executed[e] + [s.execution[e][0]]])
  }

  function Do(c: Config, s: State, step: Step): State
    requires Shape(c, s) && Enabled(c, s, step)
  {
    match step
    case Push(tx) => s.(decoding := s.decoding + multiset{tx}, pushed := s.pushed + multiset{tx})
    case Decode(tx) => DoDecode(c, s, tx)
    case Verify(tx, valid) => DoVerify(c, s, tx, valid)
    case Receive(w) => DoReceive(c, s, w)
    case Send(w) => DoSend(c, s, w)
    case Store(w) => DoStore(c, s, w)
    case Finish(w) => DoFinish(c, s, w)
    case Execute(e) => DoExecute(s, e)
  }

  /** An interleaving takes the pipeline from one state to another. */
  predicate Runs(c: Config, s: State, steps: seq<Step>, t: State)
    decreases |steps|
  {
    Shape(c, s) &&
    if steps == [] then s == t
    else Enabled(c, s, steps[0]) && Runs(c, Do(c, s, steps[0]), steps[1..], t)
  }

  // ---------------------------------------------------------------- the invariant

  /** Jobs wait at their users' workers. */
  predicate Routed(c: Config, s: State)
    requires Shape(c, s)
  {
    forall w, j :: 0 <= w < |s.prepare| && 0 <= j < |s.prepare[w]| ==>
      c.User(s.prepare[w][j].uid) && c.txRouter.Route(s.prepare[w][j].uid) == w
  }

  /** Buffers are empty, but for the one entry that a worker is about to send or has just sent. */
  predicate WorkerOk(c: Config, s: State, w: nat)
    requires Shape(c, s) && w < |s.workers|
  {
    var k := s.workers[w];
    match k.phase
    case Idle => forall u :: u in k.buffers ==> k.buffers[u] == []
    case Draining(uid, i, expected) =>
      OneEntry(c, k, w, uid) &&
      (i == 0 ==> expected == Expected(s.nonces[uid - 1]) && k.buffers[uid][0].nonce >= expected)
    case Storing(uid, i) =>
      OneEntry(c, k, w, uid) && i == 0 && k.buffers[uid][0].nonce >= Expected(s.nonces[uid - 1])
  }

  predicate OneEntry(c: Config, k: Worker, w: nat, uid: U64)
    requires c.Valid()
  {
    c.User(uid) && c.txRouter.Route(uid) == w && uid in k.buffers && |k.buffers[uid]| == 1 &&
    k.buffers[uid][0].uid == uid && forall u :: u in k.buffers && u != uid ==> k.buffers[u] == []
  }

  /** A worker holds an entry of this user that it has not sent. */
  predicate Unsent(k: Worker, uid: U64) {
    k.phase.Draining? && k.phase.uid == uid && k.phase.i == 0
  }

  predicate Unstored(k: Worker, uid: U64) {
    Unsent(k, uid) || (k.phase.Storing? && k.phase.uid == uid)
  }

  /** The arrivals that are accounted for in what was sent, or in the stored nonce. */
  function Settled(arrived: seq<U64>, open: bool): seq<U64> {
    if open && arrived != [] then arrived[..|arrived| - 1] else arrived
  }

  function HomeOf(c: Config, s: State, uid: U64): Worker
    requires Shape(c, s) && c.User(uid)
  {
    s.workers[c.txRouter.Route(uid)]
  }

  function NoncesOf(txs: seq<Tx>): seq<U64> {
    seq(|txs|, i requires 0 <= i < |txs| => txs[i].nonce)
  }

  /** What was sent, and the stored nonce, are what NonceOrder says about the arrivals. */
  predicate UserOk(c: Config, s: State, uid: U64)
    requires Shape(c, s) && c.User(uid)
  {
    var u, k := uid - 1, HomeOf(c, s, uid);
    (Unstored(k, uid) ==>
      s.arrived[u] != [] && k.Queue(uid) != [] && s.arrived[u][|s.arrived[u]| - 1] == k.Queue(uid)[0].nonce) &&
    NoncesOf(s.dispatched[u]) == Dispatched(c.init[u], Settled(s.arrived[u], Unsent(k, uid))) &&
    s.nonces[u] == Level(c.init[u], Settled(s.arrived[u], Unstored(k, uid)))
  }

  /** What an executor has been given, in order. */
  function Log(s: State, e: nat): seq<Tx>
    requires e < |s.execution| == |s.executed|
  {
    s.executed[e] + s.execution[e]
  }

  predicate CleanUser(c: Config, s: State, uid: U64)
    requires Shape(c, s) && c.User(uid)
  {
    Clean(c.init[uid - 1], s.arrived[uid - 1])
  }

  /** It has been dispatched, and, per user, its nonces increase. */
  predicate LogOk(c: Config, s: State, e: nat)
    requires Shape(c, s) && e < |s.execution|
  {
    var log := Log(s, e);
    (forall j :: 0 <= j < |log| ==>
      c.User(log[j].uid) && log[j] in s.dispatched[log[j].uid - 1] &&
      c.execRouter.Route(log[j].uid, log[j].market) == e) &&
    (forall i, j :: 0 <= i < j < |log| && log[i].uid == log[j].uid && CleanUser(c, s, log[j].uid) ==>
      log[i].nonce < log[j].nonce)
  }

  predicate Inv(c: Config, s: State) {
    Shape(c, s) && Routed(c, s) &&
    (forall w :: 0 <= w < |s.workers| ==> WorkerOk(c, s, w)) &&
    (forall uid :: c.User(uid) ==> UserOk(c, s, uid)) &&
    (forall e :: 0 <= e < |s.execution| ==> LogOk(c, s, e))
  }

  // ---------------------------------------------------------------- every step keeps it

  lemma StartsOk(c: Config)
    requires c.Valid()
    ensures Inv(c, Start(c))
  {
  }

  lemma KeepsPush(c: Config, s: State, tx: Tx)
    requires Inv(c, s)
    ensures Inv(c, Do(c, s, Push(tx)))
  {
    var t := Do(c, s, Push(tx));
    SameUsers(c, s, t);
    SameLogs(c, s, t);
  }

  lemma KeepsDecode(c: Config, s: State, tx: Tx)
    requires Inv(c, s)
    ensures Shape(c, DoDecode(c, s, tx)) && Inv(c, DoDecode(c, s, tx))
  {
    var t := DoDecode(c, s, tx);
    SameUsers(c, s, t);
    SameLogs(c, s, t);
  }

  /** Workers, nonces and histories untouched. */
  lemma SameUsers(c: Config, s: State, t: State)
    requires Inv(c, s) && Shape(c, t)
    requires t.workers == s.workers && t.nonces == s.nonces && t.arrived == s.arrived && t.dispatched == s.dispatched
    ensures forall w :: 0 <= w < |t.workers| ==> WorkerOk(c, t, w)
    ensures forall uid :: c.User(uid) ==> UserOk(c, t, uid)
  {
    forall w | 0 <= w < |t.workers| ensures WorkerOk(c, t, w) {
      assert WorkerOk(c, s, w);
    }
    forall uid | c.User(uid) ensures UserOk(c, t, uid) {
      assert UserOk(c, s, uid);
    }
  }

  /** A log stays in order while more arrives and more is dispatched. */
  lemma LogSame(c: Config, s: State, t: State, e: nat)
    requires Shape(c, s) && Shape(c, t) && e < |s.execution| && LogOk(c, s, e)
    requires Log(t, e) == Log(s, e)
    requires forall u :: 0 <= u < |c.init| ==> s.dispatched[u] <= t.dispatched[u]
    requires forall uid :: c.User(uid) ==> (CleanUser(c, t, uid) ==> CleanUser(c, s, uid))
    ensures LogOk(c, t, e)
  {
    hide Clean;
  }

  /** Executors and histories untouched. */
  lemma SameLogs(c: Config, s: State, t: State)
    requires Inv(c, s) && Shape(c, t)
    requires t.execution == s.execution && t.executed == s.executed && t.dispatched == s.dispatched
    requires t.arrived == s.arrived
    ensures forall e :: 0 <= e < |t.execution| ==> LogOk(c, t, e)
  {
    hide LogOk, Clean;
    forall e | 0 <= e < |t.execution| ensures LogOk(c, t, e) {
      LogSame(c, s, t, e);
    }
  }

  /** Logs untouched, one user with one more arrival. */
  lemma LogsOneArrival(c: Config, s: State, t: State, uid: U64, n: U64)
    requires Inv(c, s) && Shape(c, t) && c.User(uid)
    requires t.execution == s.execution && t.executed == s.executed && t.dispatched == s.dispatched
    requires t.arrived == s.arrived[uid - 1 := s.arrived[uid - 1] + [n]]
    ensures forall e :: 0 <= e < |t.execution| ==> LogOk(c, t, e)
  {
    hide LogOk, Clean;
    var a := s.arrived[uid - 1];
    assert (a + [n])[..|a + [n]| - 1] == a;
    if CleanUser(c, t, uid) { CleanBefore(c.init[uid - 1], a + [n]); }
    forall e | 0 <= e < |t.execution| ensures LogOk(c, t, e) {
      LogSame(c, s, t, e);
    }
  }

  lemma KeepsVerify(c: Config, s: State, tx: Tx, valid: bool)
    requires Inv(c, s)
    ensures Shape(c, DoVerify(c, s, tx, valid)) && Inv(c, DoVerify(c, s, tx, valid))
  {
    var t := DoVerify(c, s, tx, valid);
    SameUsers(c, s, t);
    SameLogs(c, s, t);
  }

  lemma KeepsExecute(c: Config, s: State, e: nat)
    requires Inv(c, s) && e < |s.execution| && s.execution[e] != []
    ensures Shape(c, DoExecute(s, e)) && Inv(c, DoExecute(s, e))
  {
    var t := DoExecute(s, e);
    SameUsers(c, s, t);
    forall x | 0 <= x < |t.execution| ensures LogOk(c, t, x) {
      assert LogOk(c, s, x);
      assert Log(t, x) == Log(s, x);
    }
  }

  /** The job is its user's, and the buffer that it meets is empty. */
  lemma ReceivesAtHome(c: Config, s: State, w: nat) returns (t: State, tx: Tx)
    requires Inv(c, s) && Enabled(c, s, Receive(w))
    ensures t == DoReceive(c, s, w) && tx == s.prepare[w][0]
    ensures c.User(tx.uid) && c.txRouter.Route(tx.uid) == w && s.workers[w].Queue(tx.uid) == []
    ensures t.arrived == s.arrived[tx.uid - 1 := s.arrived[tx.uid - 1] + [tx.nonce]]
    ensures t.nonces == s.nonces && t.execution == s.execution && t.executed == s.executed
      && t.dispatched == s.dispatched
    ensures t.prepare == s.prepare[w := s.prepare[w][1..]]
    ensures t.workers == s.workers[w :=
      if tx.nonce < Expected(s.nonces[tx.uid - 1]) then Worker(s.workers[w].buffers[tx.uid := []], Idle)
      else Worker(s.workers[w].buffers[tx.uid := [tx]], Draining(tx.uid, 0, Expected(s.nonces[tx.uid - 1])))]
  {
    t, tx := DoReceive(c, s, w), s.prepare[w][0];
    assert WorkerOk(c, s, w);
    assert s.workers[w].Queue(tx.uid) == [] && Insert([], tx) == [tx];
  }

  lemma KeepsReceive(c: Config, s: State, w: nat)
    requires Inv(c, s) && Enabled(c, s, Receive(w))
    ensures Shape(c, DoReceive(c, s, w)) && Inv(c, DoReceive(c, s, w))
  {
    var t, tx := ReceivesAtHome(c, s, w);
    ReceiveWorkers(c, s, t, w, tx);
    hide DoReceive, LogOk, UserOk, WorkerOk, Insert, PhaseShape;
    LogsOneArrival(c, s, t, tx.uid, tx.nonce);
    ReceiveUsers(c, s, w);
  }

  lemma ReceiveWorkers(c: Config, s: State, t: State, w: nat, tx: Tx)
    requires Inv(c, s) && w < |s.workers| && s.workers[w].phase.Idle?
    requires c.User(tx.uid) && c.txRouter.Route(tx.uid) == w
    requires |t.prepare| == |s.prepare| && |t.arrived| == |s.arrived| && t.nonces == s.nonces
    requires t.execution == s.execution && t.executed == s.executed && t.dispatched == s.dispatched
    requires t.workers == s.workers[w :=
      if tx.nonce < Expected(s.nonces[tx.uid - 1]) then Worker(s.workers[w].buffers[tx.uid := []], Idle)
      else Worker(s.workers[w].buffers[tx.uid := [tx]], Draining(tx.uid, 0, Expected(s.nonces[tx.uid - 1])))]
    ensures Shape(c, t) && forall x :: 0 <= x < |t.workers| ==> WorkerOk(c, t, x)
  {
    hide LogOk, UserOk, Routed;
    assert WorkerOk(c, s, w);
    forall x | 0 <= x < |t.workers| ensures PhaseShape(c, t.workers[x]) {
      assert PhaseShape(c, s.workers[x]);
    }
    forall x | 0 <= x < |t.workers| ensures WorkerOk(c, t, x) {
      assert WorkerOk(c, s, x);
    }
  }

  lemma ReceiveUsers(c: Config, s: State, w: nat)
    requires Inv(c, s) && Enabled(c, s, Receive(w)) && Shape(c, DoReceive(c, s, w))
    ensures forall uid :: c.User(uid) ==> UserOk(c, DoReceive(c, s, w), uid)
  {
    var t, tx := ReceivesAtHome(c, s, w);
    hide DoReceive, LogOk, WorkerOk, Routed, UserOk;
    assert UserOk(c, s, tx.uid);
    ReceivesUser(c, s, t, w, tx);
    forall uid | c.User(uid) ensures UserOk(c, t, uid) {
      assert UserOk(c, s, uid);
      if uid != tx.uid { OtherUser(c, s, t, uid); }
    }
  }

  /** What is of concern to this user is the same. */
  lemma OtherUser(c: Config, s: State, t: State, uid: U64)
    requires Shape(c, s) && Shape(c, t) && c.User(uid) && UserOk(c, s, uid)
    requires t.arrived[uid - 1] == s.arrived[uid - 1] && t.dispatched[uid - 1] == s.dispatched[uid - 1]
    requires t.nonces[uid - 1] == s.nonces[uid - 1]
    requires HomeOf(c, t, uid).Queue(uid) == HomeOf(c, s, uid).Queue(uid)
    requires Unsent(HomeOf(c, t, uid), uid) == Unsent(HomeOf(c, s, uid), uid)
    requires Unstored(HomeOf(c, t, uid), uid) == Unstored(HomeOf(c, s, uid), uid)
    ensures UserOk(c, t, uid)
  {
  }

  /** Its arrivals grow by one, which is open or has been dropped. */
  lemma ReceivesUser(c: Config, s: State, t: State, w: nat, tx: Tx)
    requires Shape(c, s) && Shape(c, t) && c.User(tx.uid) && UserOk(c, s, tx.uid)
    requires c.txRouter.Route(tx.uid) == w && s.workers[w].phase.Idle?
    requires t.arrived[tx.uid - 1] == s.arrived[tx.uid - 1] + [tx.nonce] && t.nonces == s.nonces
    requires t.dispatched == s.dispatched
    requires t.workers[w] ==
      if tx.nonce < Expected(s.nonces[tx.uid - 1]) then Worker(s.workers[w].buffers[tx.uid := []], Idle)
      else Worker(s.workers[w].buffers[tx.uid := [tx]], Draining(tx.uid, 0, Expected(s.nonces[tx.uid - 1])))
    ensures UserOk(c, t, tx.uid)
  {
    var a := s.arrived[tx.uid - 1];
    assert (a + [tx.nonce])[..|a + [tx.nonce]| - 1] == a;
  }

  predicate AllBelow(ns: seq<U64>, n: U64) {
    forall i :: 0 <= i < |ns| ==> ns[i] < n
  }

  /** One user's nonces, the log of one executor: the entry sent is above all that were sent before. */
  lemma SentIsAbove(c: Config, s: State, w: nat, uid: U64, n: U64)
    requires Inv(c, s) && w < |s.workers| && GoesOn(s.workers[w])
    requires uid == s.workers[w].phase.uid && n == s.workers[w].Queue(uid)[s.workers[w].phase.i].nonce
    ensures c.User(uid) && s.workers[w].phase.i == 0 && HomeOf(c, s, uid) == s.workers[w]
    ensures NoncesOf(s.dispatched[uid - 1]) + [n] == Dispatched(c.init[uid - 1], s.arrived[uid - 1])
    ensures CleanUser(c, s, uid) ==> AllBelow(NoncesOf(s.dispatched[uid - 1]), n)
  {
    assert WorkerOk(c, s, w) && UserOk(c, s, uid);
    var init, a, d := c.init[uid - 1], s.arrived[uid - 1], NoncesOf(s.dispatched[uid - 1]);
    assert d + [n] == Dispatched(init, a);
    if CleanUser(c, s, uid) {
      DispatchedIncrease(init, a);
      var all := [init] + Dispatched(init, a);
      assert forall i :: 0 <= i < |d| ==> all[i + 1] == d[i] && all[|d| + 1] == n;
    }
  }

  lemma KeepsSend(c: Config, s: State, w: nat)
    requires Inv(c, s) && Enabled(c, s, Send(w))
    ensures Shape(c, DoSend(c, s, w)) && Inv(c, DoSend(c, s, w))
  {
    var t, uid := DoSend(c, s, w), s.workers[w].phase.uid;
    assert WorkerOk(c, s, w);
    SendUsers(c, s, w);
    SendLogs(c, s, w);
    hide LogOk, UserOk;
    forall x | 0 <= x < |t.workers| ensures WorkerOk(c, t, x) {
      assert WorkerOk(c, s, x);
    }
  }

  lemma SendUsers(c: Config, s: State, w: nat)
    requires Inv(c, s) && Enabled(c, s, Send(w)) && Shape(c, DoSend(c, s, w))
    ensures forall uid :: c.User(uid) ==> UserOk(c, DoSend(c, s, w), uid)
  {
    var t, k := DoSend(c, s, w), s.workers[w];
    var uid := k.phase.uid;
    SentIsAbove(c, s, w, uid, k.Queue(uid)[k.phase.i].nonce);
    assert WorkerOk(c, s, w);
    hide LogOk, Routed, Dispatched, Level;
    assert UserOk(c, s, uid) && UserOk(c, t, uid);
    hide UserOk, WorkerOk;
    forall u | c.User(u) ensures UserOk(c, t, u) {
      assert UserOk(c, s, u);
      if u != uid { OtherUser(c, s, t, u); }
    }
  }

  lemma SendLogs(c: Config, s: State, w: nat)
    requires Inv(c, s) && Enabled(c, s, Send(w)) && Shape(c, DoSend(c, s, w))
    ensures forall e :: 0 <= e < |s.execution| ==> LogOk(c, DoSend(c, s, w), e)
  {
    var t, k := DoSend(c, s, w), s.workers[w];
    var uid := k.phase.uid;
    var tx := k.Queue(uid)[k.phase.i];
    SentIsAbove(c, s, w, uid, tx.nonce);
    assert WorkerOk(c, s, w) && tx.uid == uid;
    var e := c.execRouter.Route(tx.uid, tx.market);
    forall x | 0 <= x < |t.execution| ensures LogOk(c, t, x) {
      assert LogOk(c, s, x);
      if x == e {
        LogGrows(c, s, t, e, tx);
      } else {
        assert Log(t, x) == Log(s, x);
        LogSame(c, s, t, x);
      }
    }
  }

  lemma LogGrows(c: Config, s: State, t: State, e: nat, tx: Tx)
    requires Shape(c, s) && Shape(c, t) && e < |s.execution| && LogOk(c, s, e) && c.User(tx.uid)
    requires Log(t, e) == Log(s, e) + [tx] && t.arrived == s.arrived && c.execRouter.Route(tx.uid, tx.market) == e
    requires forall u :: 0 <= u < |c.init| ==> s.dispatched[u] <= t.dispatched[u]
    requires tx in t.dispatched[tx.uid - 1]
    requires CleanUser(c, s, tx.uid) ==> AllBelow(NoncesOf(s.dispatched[tx.uid - 1]), tx.nonce)
    ensures LogOk(c, t, e)
  {
    hide Clean, NoncesOf, AllBelow, Log;
    var log, more := Log(s, e), Log(t, e);
    forall j | 0 <= j < |more|
      ensures c.User(more[j].uid) && more[j] in t.dispatched[more[j].uid - 1]
        && c.execRouter.Route(more[j].uid, more[j].market) == e
    {
      if j < |log| { assert more[j] == log[j]; }
    }
    forall i, j | 0 <= i < j < |more| && more[i].uid == more[j].uid && CleanUser(c, t, more[j].uid)
      ensures more[i].nonce < more[j].nonce
    {
      assert more[i] == log[i];
      if j == |log| { BelowAll(s.dispatched[tx.uid - 1], tx.nonce, log[i]); }
    }
  }

  lemma BelowAll(txs: seq<Tx>, n: U64, tx: Tx)
    requires AllBelow(NoncesOf(txs), n) && tx in txs
    ensures tx.nonce < n
  {
    var i :| 0 <= i < |txs| && txs[i] == tx;
    assert NoncesOf(txs)[i] < n;
  }

  lemma KeepsStore(c: Config, s: State, w: nat)
    requires Inv(c, s) && Enabled(c, s, Store(w))
    ensures Shape(c, DoStore(c, s, w)) && Inv(c, DoStore(c, s, w))
  {
    var t := DoStore(c, s, w);
    assert WorkerOk(c, s, w);
    SameLogs(c, s, t);
    StoreUsers(c, s, w);
    hide LogOk, UserOk;
    forall x | 0 <= x < |t.workers| ensures WorkerOk(c, t, x) {
      assert WorkerOk(c, s, x);
    }
  }

  lemma StoreUsers(c: Config, s: State, w: nat)
    requires Inv(c, s) && Enabled(c, s, Store(w)) && Shape(c, DoStore(c, s, w))
    ensures forall uid :: c.User(uid) ==> UserOk(c, DoStore(c, s, w), uid)
  {
    var t, uid := DoStore(c, s, w), s.workers[w].phase.uid;
    assert WorkerOk(c, s, w);
    assert UserOk(c, s, uid);
    assert UserOk(c, t, uid);
    hide UserOk, WorkerOk, LogOk, Routed;
    forall u | c.User(u) ensures UserOk(c, t, u) {
      assert UserOk(c, s, u);
      if u != uid { OtherUser(c, s, t, u); }
    }
  }

  lemma KeepsFinish(c: Config, s: State, w: nat)
    requires Inv(c, s) && Enabled(c, s, Finish(w))
    ensures Shape(c, DoFinish(c, s, w)) && Inv(c, DoFinish(c, s, w))
  {
    var t := DoFinish(c, s, w);
    assert WorkerOk(c, s, w);
    SameLogs(c, s, t);
    forall x | 0 <= x < |t.workers| ensures WorkerOk(c, t, x) {
      assert WorkerOk(c, s, x);
    }
    forall u | c.User(u) ensures UserOk(c, t, u) {
      assert UserOk(c, s, u);
    }
  }

  lemma Keeps(c: Config, s: State, step: Step)
    requires Inv(c, s) && Enabled(c, s, step)
    ensures Inv(c, Do(c, s, step))
  {
    hide Inv, DoDecode, DoVerify, DoReceive, DoSend, DoStore, DoFinish, DoExecute;
    match step
    case Push(tx) => KeepsPush(c, s, tx);
    case Decode(tx) => KeepsDecode(c, s, tx);
    case Verify(tx, valid) => KeepsVerify(c, s, tx, valid);
    case Receive(w) => KeepsReceive(c, s, w);
    case Send(w) => KeepsSend(c, s, w);
    case Store(w) => KeepsStore(c, s, w);
    case Finish(w) => KeepsFinish(c, s, w);
    case Execute(e) => KeepsExecute(c, s, e);
  }

  lemma {:induction false} RunKeeps(c: Config, s: State, steps: seq<Step>, t: State)
    requires Inv(c, s) && Runs(c, s, steps, t)
    ensures Inv(c, t)
    decreases |steps|
  {
    if steps != [] {
      Keeps(c, s, steps[0]);
      RunKeeps(c, Do(c, s, steps[0]), steps[1..], t);
    }
  }

  // ---------------------------------------------------------------- over every interleaving

  /** What a user's worker has sent on follows from what it received, in every interleaving: all the maxima, but for one
      that may be on its way, exactly when nothing arrived after the greatest nonce. */
  lemma NoncesInOrder(c: Config, steps: seq<Step>, t: State, uid: U64)
    requires c.Valid() && Runs(c, Start(c), steps, t) && c.User(uid)
    ensures Shape(c, t)
    ensures var init, arrived, sent := c.init[uid - 1], t.arrived[uid - 1], NoncesOf(t.dispatched[uid - 1]);
      sent <= Dispatched(init, arrived) &&
      (!Unsent(HomeOf(c, t, uid), uid) ==>
        sent == Dispatched(init, arrived) && (sent == Maxima(init, arrived) <==> Clean(init, arrived))) &&
      (Clean(init, arrived) ==> sent <= Maxima(init, arrived) && Increasing(sent))
  {
    StartsOk(c);
    RunKeeps(c, Start(c), steps, t);
    assert UserOk(c, t, uid);
    var init, arrived, sent := c.init[uid - 1], t.arrived[uid - 1], NoncesOf(t.dispatched[uid - 1]);
    DispatchedAreMaxima(init, arrived);
    DispatchedIncrease(init, arrived);
    if Clean(init, arrived) {
      var all := [init] + Dispatched(init, arrived);
      assert forall i :: 0 <= i < |sent| ==> all[i + 1] == sent[i];
    }
  }

  /** In every interleaving a user's buffer holds one entry at most, and none between jobs: it is never full. */
  lemma BuffersHoldOne(c: Config, steps: seq<Step>, t: State, w: nat, uid: U64)
    requires c.Valid() && Runs(c, Start(c), steps, t) && Shape(c, t) && w < |t.workers|
    ensures |t.workers[w].Queue(uid)| <= if t.workers[w].phase.Idle? then 0 else 1
  {
    StartsOk(c);
    RunKeeps(c, Start(c), steps, t);
    assert WorkerOk(c, t, w);
  }

  /** Every executor sees every user's nonces strictly increase, and only what is routed to it. */
  lemma ExecutorsSeeIncreasing(c: Config, steps: seq<Step>, t: State, e: nat, i: nat, j: nat)
    requires c.Valid() && Runs(c, Start(c), steps, t)
    requires Shape(c, t) && e < |t.executed| && i < j < |t.executed[e]|
    ensures c.User(t.executed[e][j].uid)
    ensures c.execRouter.Route(t.executed[e][j].uid, t.executed[e][j].market) == e
    ensures t.executed[e][i].uid == t.executed[e][j].uid && CleanUser(c, t, t.executed[e][j].uid) ==>
      t.executed[e][i].nonce < t.executed[e][j].nonce
  {
    StartsOk(c);
    RunKeeps(c, Start(c), steps, t);
    assert LogOk(c, t, e);
    assert Log(t, e)[i] == t.executed[e][i] && Log(t, e)[j] == t.executed[e][j];
  }

  // ---------------------------------------------------------------- what an executor sees of one user

  /** The user's transactions in a log. */
  function Of(log: seq<Tx>, uid: U64): seq<Tx> {
    if log == [] then [] else
      Of(log[..|log| - 1], uid) + if log[|log| - 1].uid == uid then [log[|log| - 1]] else []
  }

  /** The transactions that go to this executor. */
  function RoutedTo(c: Config, txs: seq<Tx>, e: nat): seq<Tx> {
    if txs == [] then [] else
      var tx := txs[|txs| - 1];
      RoutedTo(c, txs[..|txs| - 1], e) + if c.execRouter.Route(tx.uid, tx.market) == e then [tx] else []
  }

  predicate AllOf(txs: seq<Tx>, uid: U64) {
    forall i :: 0 <= i < |txs| ==> txs[i].uid == uid
  }

  /** What the executor has been given of a user is what the user's worker sent its way, in that order. */
  predicate PartOk(c: Config, s: State, e: nat, uid: U64)
    requires Shape(c, s) && e < |s.execution| && c.User(uid)
  {
    AllOf(s.dispatched[uid - 1], uid) && Of(Log(s, e), uid) == RoutedTo(c, s.dispatched[uid - 1], e)
  }

  predicate PartsOk(c: Config, s: State)
    requires Shape(c, s)
  {
    forall e, uid :: 0 <= e < |s.execution| && c.User(uid) ==> PartOk(c, s, e, uid)
  }

  /** One more transaction of the worker's user is dispatched, and waits for its executor. */
  lemma Sends(c: Config, s: State, w: nat) returns (t: State, tx: Tx)
    requires Inv(c, s) && Enabled(c, s, Send(w))
    ensures t == DoSend(c, s, w) && c.User(tx.uid)
    ensures [tx] == s.workers[w].Queue(tx.uid)
    ensures s.workers[w].phase == Draining(tx.uid, 0, s.workers[w].phase.expected)
    ensures var e := c.execRouter.Route(tx.uid, tx.market);
      t.executed == s.executed && t.execution == s.execution[e := s.execution[e] + [tx]]
    ensures t.arrived == s.arrived && t.dispatched == s.dispatched[tx.uid - 1 := s.dispatched[tx.uid - 1] + [tx]]
  {
    var k := s.workers[w];
    assert WorkerOk(c, s, w);
    t, tx := DoSend(c, s, w), k.Queue(k.phase.uid)[k.phase.i];
  }

  lemma SendKeepsParts(c: Config, s: State, w: nat)
    requires Inv(c, s) && Enabled(c, s, Send(w)) && PartsOk(c, s) && Shape(c, DoSend(c, s, w))
    ensures PartsOk(c, DoSend(c, s, w))
  {
    hide Routed, WorkerOk, UserOk, LogOk, GoesOn, DoSend, PartOk;
    var t, tx := Sends(c, s, w);
    forall e, uid | 0 <= e < |t.execution| && c.User(uid) ensures PartOk(c, t, e, uid) {
      assert PartOk(c, s, e, uid);
      assert t.dispatched[uid - 1] == s.dispatched[uid - 1] + if tx.uid == uid then [tx] else [];
      PartGrows(c, s, t, e, uid, tx);
    }
  }

  lemma PartGrows(c: Config, s: State, t: State, e: nat, uid: U64, tx: Tx)
    requires Shape(c, s) && Shape(c, t) && e < |s.execution| && c.User(uid) && PartOk(c, s, e, uid)
    requires var here := c.execRouter.Route(tx.uid, tx.market) == e;
             t.executed[e] == s.executed[e] && t.execution[e] == s.execution[e] + if here then [tx] else []
    requires t.dispatched[uid - 1] == s.dispatched[uid - 1] + if tx.uid == uid then [tx] else []
    ensures PartOk(c, t, e, uid)
  {
    var log, d := Log(s, e), s.dispatched[uid - 1];
    assert Log(t, e) == log + if c.execRouter.Route(tx.uid, tx.market) == e then [tx] else [];
    assert (log + [tx])[..|log|] == log && (d + [tx])[..|d|] == d && log + [] == log && d + [] == d;
  }

  lemma StepKeepsParts(c: Config, s: State, step: Step)
    requires Inv(c, s) && Enabled(c, s, step) && PartsOk(c, s)
    ensures Shape(c, Do(c, s, step)) && PartsOk(c, Do(c, s, step))
  {
    Keeps(c, s, step);
    if step.Send? {
      SendKeepsParts(c, s, step.w);
    } else {
      var t := Do(c, s, step);
      forall e, uid | 0 <= e < |t.execution| && c.User(uid) ensures PartOk(c, t, e, uid) {
        assert PartOk(c, s, e, uid);
        assert Log(t, e) == Log(s, e);
      }
    }
  }

  lemma {:induction false} RunKeepsParts(c: Config, s: State, steps: seq<Step>, t: State)
    requires Inv(c, s) && PartsOk(c, s) && Runs(c, s, steps, t)
    ensures Shape(c, t) && PartsOk(c, t)
    decreases |steps|
  {
    hide Inv, PartsOk;
    if steps != [] {
      Keeps(c, s, steps[0]);
      StepKeepsParts(c, s, steps[0]);
      RunKeepsParts(c, Do(c, s, steps[0]), steps[1..], t);
    }
  }

  /** The user's nonces increase along the log. */
  predicate InOrder(log: seq<Tx>, uid: U64) {
    forall i, j :: 0 <= i < j < |log| && log[i].uid == log[j].uid == uid ==> log[i].nonce < log[j].nonce
  }

  lemma {:induction false} OfAll(log: seq<Tx>, uid: U64, n: U64)
    ensures AllBelow(NoncesOf(Of(log, uid)), n) <==>
      forall i :: 0 <= i < |log| && log[i].uid == uid ==> log[i].nonce < n
  {
    if log != [] {
      var rest, d := log[..|log| - 1], Of(log[..|log| - 1], uid);
      OfAll(rest, uid, n);
      assert forall i :: 0 <= i < |rest| ==> rest[i] == log[i];
      assert forall i :: 0 <= i < |d| ==> NoncesOf(Of(log, uid))[i] == NoncesOf(d)[i];
      if log[|log| - 1].uid == uid { assert NoncesOf(Of(log, uid))[|d|] == log[|log| - 1].nonce; }
    }
  }

  lemma {:induction false} OfInOrder(log: seq<Tx>, uid: U64)
    ensures InOrder(log, uid) <==> Increasing(NoncesOf(Of(log, uid)))
  {
    hide NoncesOf, Increasing, AllBelow, InOrder;
    if log == [] {
      OrderedNothing(uid);
    } else {
      var rest, tx := log[..|log| - 1], log[|log| - 1];
      OfInOrder(rest, uid);
      OfAll(rest, uid, tx.nonce);
      NoncesMore(Of(rest, uid), tx);
      IncreasingMore(NoncesOf(Of(rest, uid)), tx.nonce);
      InOrderMore(rest, tx, uid);
      assert log == rest + [tx] && Of(rest, uid) + [] == Of(rest, uid);
    }
  }

  lemma OrderedNothing(uid: U64)
    ensures InOrder([], uid) && Increasing(NoncesOf([]))
  {
  }

  lemma NoncesMore(txs: seq<Tx>, tx: Tx)
    ensures NoncesOf(txs + [tx]) == NoncesOf(txs) + [tx.nonce]
  {
  }

  lemma IncreasingMore(d: seq<U64>, n: U64)
    ensures Increasing(d + [n]) <==> Increasing(d) && AllBelow(d, n)
  {
    var e := d + [n];
    assert forall i :: 0 <= i < |d| ==> e[i] == d[i];
    if Increasing(e) { assert forall i :: 0 <= i < |d| ==> e[i] < e[|d|]; }
  }

  lemma InOrderMore(log: seq<Tx>, tx: Tx, uid: U64)
    ensures InOrder(log + [tx], uid) <==>
      (InOrder(log, uid) &&
       (tx.uid == uid ==> forall i :: 0 <= i < |log| && log[i].uid == uid ==> log[i].nonce < tx.nonce))
  {
    var more := log + [tx];
    assert forall i :: 0 <= i < |log| ==> more[i] == log[i];
    if InOrder(more, uid) && tx.uid == uid {
      assert forall i :: 0 <= i < |log| && more[i].uid == uid ==> more[i].nonce < more[|log|].nonce;
    }
  }

  /** In every interleaving, what an executor is given of a user is the part of the user's dispatched transactions that
      is routed to it, in the order of dispatch; it sees the nonces increase exactly when they do in that part. */
  lemma ExecutorsSeeRouted(c: Config, steps: seq<Step>, t: State, e: nat, uid: U64)
    requires c.Valid() && Runs(c, Start(c), steps, t) && c.User(uid) && e < c.execRouter.Workers()
    ensures Shape(c, t)
    ensures var part := RoutedTo(c, t.dispatched[uid - 1], e);
      Of(Log(t, e), uid) == part && (InOrder(Log(t, e), uid) <==> Increasing(NoncesOf(part)))
  {
    StartsOk(c);
    var s := Start(c);
    assert forall x :: 0 <= x < |s.execution| ==> Log(s, x) == [];
    RunKeepsParts(c, s, steps, t);
    assert PartOk(c, t, e, uid);
    OfInOrder(Log(t, e), uid);
  }

  /** The markets of ordinary users that executor e is there for. */
  predicate Handles(r: ExecutionRouter, e: nat, market: U32) {
    var small := market == 0 || market > r.dedicatedCount;
    if e == 0 then small && r.generalWorkers == 0
    else if e <= r.dedicatedCount then market == e
    else small && r.generalWorkers > 0 && (market - (e - 1 - r.dedicatedCount)) % r.generalWorkers == 0
  }

  /** The transactions in these markets. */
  function Handled(r: ExecutionRouter, txs: seq<Tx>, e: nat): seq<Tx> {
    if txs == [] then [] else
      Handled(r, txs[..|txs| - 1], e) + if Handles(r, e, txs[|txs| - 1].market) then [txs[|txs| - 1]] else []
  }

  lemma {:induction false} RoutedIsServed(c: Config, txs: seq<Tx>, e: nat, uid: U64)
    requires e < c.execRouter.Workers() && AllOf(txs, uid)
    ensures RoutedTo(c, txs, e) ==
      if uid > c.execRouter.systemMaxUID then Handled(c.execRouter, txs, e) else if e == 0 then txs else []
  {
    if txs != [] {
      RoutedIsServed(c, txs[..|txs| - 1], e, uid);
      c.execRouter.Serves(uid, txs[|txs| - 1].market, e);
    }
  }

  /** In every interleaving, executor 0 is given all the transactions that are dispatched for a system user, in the
      order of dispatch, and no other executor any; of an ordinary user every executor is given those in its markets. */
  lemma ExecutorsServe(c: Config, steps: seq<Step>, t: State, e: nat, uid: U64)
    requires c.Valid() && Runs(c, Start(c), steps, t) && c.User(uid) && e < c.execRouter.Workers()
    ensures Shape(c, t)
    ensures var sent := t.dispatched[uid - 1];
      Of(Log(t, e), uid) ==
        if uid > c.execRouter.systemMaxUID then Handled(c.execRouter, sent, e) else if e == 0 then sent else []
  {
    var s := Start(c);
    StartsOk(c);
    assert forall x :: 0 <= x < |s.execution| ==> Log(s, x) == [];
    RunKeepsParts(c, s, steps, t);
    assert PartOk(c, t, e, uid);
    RoutedIsServed(c, t.dispatched[uid - 1], e, uid);
  }

  lemma {:induction false} ArrivedGrows(c: Config, s: State, steps: seq<Step>, t: State, u: nat)
    requires Runs(c, s, steps, t) && u < |c.init|
    ensures Shape(c, t) && s.arrived[u] <= t.arrived[u]
    decreases |steps|
  {
    if steps != [] {
      var next := Do(c, s, steps[0]);
      assert s.arrived[u] <= next.arrived[u];
      ArrivedGrows(c, next, steps[1..], t, u);
    }
  }

  /** The stored nonce at one moment stems from a part of the arrivals of every later moment. */
  lemma LevelAlongRun(c: Config, before: seq<Step>, s: State, after: seq<Step>, t: State, uid: U64)
    returns (a: seq<U64>)
    requires c.Valid() && Runs(c, Start(c), before, s) && Runs(c, s, after, t) && c.User(uid)
    ensures Shape(c, t) && a <= s.arrived[uid - 1] <= t.arrived[uid - 1]
    ensures s.nonces[uid - 1] == Level(c.init[uid - 1], a)
    ensures !Unstored(HomeOf(c, t, uid), uid) ==> t.nonces[uid - 1] == Level(c.init[uid - 1], t.arrived[uid - 1])
  {
    StartsOk(c);
    RunKeeps(c, Start(c), before, s);
    RunKeeps(c, s, after, t);
    ArrivedGrows(c, s, after, t, uid - 1);
    assert UserOk(c, s, uid) && UserOk(c, t, uid);
    a := Settled(s.arrived[uid - 1], Unstored(HomeOf(c, s, uid), uid));
  }

  /** A decoder finds a nonce that is not above the stored one, and drops the transaction.  Wherever among the later
      arrivals it would have come, what its user's worker dispatches would be the same, short of wrapping around. */
  lemma EarlyDropLosesNothing(c: Config, before: seq<Step>, s: State, after: seq<Step>, t: State, tx: Tx, k: nat)
    requires c.Valid() && Runs(c, Start(c), before, s) && Runs(c, s, after, t)
    requires c.User(tx.uid) && tx.nonce <= s.nonces[tx.uid - 1]
    requires Shape(c, t) && |s.arrived[tx.uid - 1]| <= k <= |t.arrived[tx.uid - 1]|
    ensures var init, all := c.init[tx.uid - 1], t.arrived[tx.uid - 1];
      Clean(init, all[..k] + [tx.nonce] + all[k..]) ==>
        Dispatched(init, all[..k] + [tx.nonce] + all[k..]) == Dispatched(init, all)
  {
    var a := LevelAlongRun(c, before, s, after, t, tx.uid);
    var init, all := c.init[tx.uid - 1], t.arrived[tx.uid - 1];
    hide Runs, Clean;
    if Clean(init, all[..k] + [tx.nonce] + all[k..]) {
      assert all[..k] == a + all[|a|..k] && all == all[..k] + all[k..];
      EarlyDropHarmless(init, a, all[|a|..k], tx.nonce, all[k..]);
    }
  }

  /** A worker that is between two jobs of this user would drop it too, unless the stored nonce is the greatest. */
  lemma WorkerAgrees(c: Config, before: seq<Step>, s: State, after: seq<Step>, t: State, tx: Tx)
    requires c.Valid() && Runs(c, Start(c), before, s) && Runs(c, s, after, t) && Shape(c, t)
    requires c.User(tx.uid) && tx.nonce <= s.nonces[tx.uid - 1]
    requires CleanUser(c, t, tx.uid) && !Unstored(HomeOf(c, t, tx.uid), tx.uid)
    ensures tx.nonce < Expected(t.nonces[tx.uid - 1]) <==> t.nonces[tx.uid - 1] != U64_MAX
  {
    var a := LevelAlongRun(c, before, s, after, t, tx.uid);
    var init, all := c.init[tx.uid - 1], t.arrived[tx.uid - 1];
    assert all == a + all[|a|..];
    EarlyDropAgrees(init, a, all[|a|..], tx.nonce);
  }
}
