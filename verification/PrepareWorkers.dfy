/** The prepare worker's loop body on its own objects: what one job does when nothing interrupts it. */
module PrepareWorkers {
  import opened Words
  import opened NonceOrder
  import opened PrepareQueue
  import opened Routing
  import opened Pipeline

  /** The executors' channels after these transactions were sent, one after the other. */
  function SendAll(router: ExecutionRouter, channels: seq<seq<Tx>>, txs: seq<Tx>): (r: seq<seq<Tx>>)
    requires |channels| == router.Workers()
    ensures |r| == |channels|
  {
    if txs == [] then channels else
      var c, tx := SendAll(router, channels, txs[..|txs| - 1]), txs[|txs| - 1];
      var e := router.Route(tx.uid, tx.market);
      c[e := c[e] + [tx]]
  }

  class PrepareWorker {
    const router: ExecutionRouter
    var pendingBuffers: map<U64, UserBuffer>

    constructor (router: ExecutionRouter)
      ensures Valid() && pendingBuffers == map[] && this.router == router
    {
      this.router := router;
      pendingBuffers := map[];
    }

    /** Every user has its own buffer. */
    ghost predicate Valid()
      reads this
    {
      forall u, v :: u in pendingBuffers && v in pendingBuffers && u != v ==> pendingBuffers[u] != pendingBuffers[v]
    }

    ghost function Buffers(): set<UserBuffer>
      reads this
    {
      set u | u in pendingBuffers :: pendingBuffers[u]
    }

    ghost function QueueOf(uid: U64): seq<Tx>
      reads this, Buffers()
    {
      if uid in pendingBuffers then pendingBuffers[uid].Queue else []
    }

    method GetBuffer(uid: U64) returns (buf: UserBuffer)
      requires Valid()
      modifies this`pendingBuffers
      ensures Valid() && uid in pendingBuffers && pendingBuffers[uid] == buf
      ensures pendingBuffers == old(pendingBuffers)[uid := buf]
      ensures uid in old(pendingBuffers) ==> buf == old(pendingBuffers)[uid]
      ensures uid !in old(pendingBuffers) ==> fresh(buf) && buf.Queue == []
    {
      if uid in pendingBuffers {
        buf := pendingBuffers[uid];
      } else {
        buf := new UserBuffer();
        pendingBuffers := pendingBuffers[uid := buf];
      }
    }

    /** Sends what can be sent, and stores its nonces. */
    method Drain(queue: seq<Tx>, u: nat, first: U64, nonces: array<U64>, channels: array<seq<Tx>>)
      returns (processed: nat)
      requires u < nonces.Length && channels.Length == router.Workers()
      modifies nonces, channels
      ensures processed == Drained(queue, first)
      ensures nonces[..] == old(nonces[..])[u := if processed > 0 then queue[processed - 1].nonce else old(nonces[u])]
      ensures channels[..] == SendAll(router, old(channels[..]), queue[..processed])
    {
      processed := 0;
      var expected := first;
      while processed < |queue|
        invariant processed <= |queue|
        invariant Drained(queue, first) == processed + Drained(queue[processed..], expected)
        invariant nonces[..] ==
          old(nonces[..])[u := if processed > 0 then queue[processed - 1].nonce else old(nonces[u])]
        invariant channels[..] == SendAll(router, old(channels[..]), queue[..processed])
      {
        var pending := queue[processed];
        if pending.nonce < expected { break; }
        var target := router.Route(pending.uid, pending.market);
        channels[target] := channels[target] + [pending];
        nonces[u] := pending.nonce;
        expected := pending.nonce;
        assert queue[processed..][1..] == queue[processed + 1..];
        assert queue[..processed + 1][..processed] == queue[..processed];
        processed := processed + 1;
      }
    }

    /** One job. */
    method Handle(job: Tx, nonces: array<U64>, channels: array<seq<Tx>>)
      requires Valid() && channels.Length == router.Workers()
      modifies this`pendingBuffers, Buffers(), nonces, channels
      ensures Valid() && forall u :: u in pendingBuffers ==> u in old(pendingBuffers) || u == job.uid
      ensures forall u :: u in old(pendingBuffers) ==>
        u in pendingBuffers && pendingBuffers[u] == old(pendingBuffers)[u]
      ensures forall u :: u != job.uid ==> QueueOf(u) == old(QueueOf(u))
      ensures !(1 <= job.uid <= nonces.Length) ==>
        QueueOf(job.uid) == old(QueueOf(job.uid)) && nonces[..] == old(nonces[..]) && channels[..] == old(channels[..])
      ensures 1 <= job.uid <= nonces.Length ==>
        var outcome := Arrive(old(QueueOf(job.uid)), old(nonces[job.uid - 1]), job);
        QueueOf(job.uid) == outcome.queue &&
        nonces[..] == old(nonces[..])[job.uid - 1 := outcome.nonce] &&
        channels[..] == SendAll(router, old(channels[..]), outcome.sent)
    {
      if job.uid == 0 || job.uid > nonces.Length { return; }
      var u := job.uid - 1;
      var expected := Expected(nonces[u]);
      var buf := GetBuffer(job.uid);
      if job.nonce < expected { return; }
      if |buf.Queue| >= MAX_PENDING { return; }
      buf.Add(job);
      var processed := Drain(buf.Queue, u, expected, nonces, channels);
      buf.Shift(processed);
    }
  }

  /** The steps of a worker that nothing interrupts do what the loop body does. */
  lemma StepsAgree(c: Config, s: State, w: nat) returns (steps: seq<Step>, t: State)
    requires Inv(c, s) && Enabled(c, s, Receive(w))
    ensures Runs(c, s, steps, t) && |t.workers| == |s.workers| && t.workers[w].phase.Idle?
    ensures var tx := s.prepare[w][0];
      c.User(tx.uid) &&
      var outcome := Arrive(s.workers[w].Queue(tx.uid), s.nonces[tx.uid - 1], tx);
      t.nonces == s.nonces[tx.uid - 1 := outcome.nonce] &&
      t.workers[w].Queue(tx.uid) == outcome.queue &&
      t.execution == SendAll(c.execRouter, s.execution, outcome.sent)
  {
    var r, tx := ReceivesAtHome(c, s, w);
    KeepsReceive(c, s, w);
    ArriveEmpty(s.nonces[tx.uid - 1], tx);
    assert SendAll(c.execRouter, s.execution, []) == s.execution;
    assert Shape(c, s) && Shape(c, r) && r == Do(c, s, Receive(w));
    hide Inv, Do, Enabled, DoReceive, Arrive, PhaseShape, Runs, SendAll;
    if tx.nonce < Expected(s.nonces[tx.uid - 1]) {
      steps, t := [], r;
    } else {
      t := DrainAlone(c, r, w, tx);
      steps := [Send(w), Store(w), Finish(w)];
    }
    RunOne(c, s, Receive(w), r, steps, t);
    steps := [Receive(w)] + steps;
  }

  lemma DrainAlone(c: Config, r: State, w: nat, tx: Tx) returns (t: State)
    requires Shape(c, r) && w < |r.workers| && c.User(tx.uid)
    requires r.workers[w].phase == Draining(tx.uid, 0, Expected(r.nonces[tx.uid - 1]))
    requires r.workers[w].Queue(tx.uid) == [tx] && tx.nonce >= Expected(r.nonces[tx.uid - 1])
    ensures Runs(c, r, [Send(w), Store(w), Finish(w)], t)
    ensures t.nonces == r.nonces[tx.uid - 1 := tx.nonce]
    ensures t.workers == r.workers[w := Worker(r.workers[w].buffers[tx.uid := []], Idle)]
    ensures t.execution == SendAll(c.execRouter, r.execution, [tx])
  {
    var a := DoSend(c, r, w);
    var b := DoStore(c, a, w);
    t := DoFinish(c, b, w);
    assert [tx][..0] == [];
    hide DoSend, DoStore, DoFinish, PhaseShape, Runs;
    RunOne(c, b, Finish(w), t, [], t);
    RunOne(c, a, Store(w), b, [Finish(w)], t);
    RunOne(c, r, Send(w), a, [Store(w), Finish(w)], t);
    assert [Store(w)] + [Finish(w)] == [Store(w), Finish(w)];
    assert [Send(w)] + [Store(w), Finish(w)] == [Send(w), Store(w), Finish(w)];
  }

  lemma RunOne(c: Config, s: State, step: Step, r: State, rest: seq<Step>, t: State)
    requires Shape(c, s) && Enabled(c, s, step) && r == Do(c, s, step) && Shape(c, r)
    requires if rest == [] then r == t else Runs(c, r, rest, t)
    ensures Runs(c, s, [step] + rest, t)
  {
    assert ([step] + rest)[1..] == rest;
  }
}
