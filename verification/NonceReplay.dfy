/** A run in which an executor sees a user's nonces out of order. */
module NonceReplay {
  import opened Words
  import opened NonceOrder
  import opened PrepareQueue
  import opened Routing
  import opened Pipeline

  const LAST: Tx := Tx(1, 1, U64_MAX, 0)
  const LATE: Tx := Tx(2, 1, 7, 0)

  /** One system user, one prepare worker, one executor. */
  const SMALL: Config := Config([5], TxRouter(100, map[], 1), ExecutionRouter(100, 0, 0))

  lemma {:induction false} RunOn(c: Config, s: State, steps: seq<Step>, t: State, step: Step, u: State)
    requires Runs(c, s, steps, t) && Shape(c, t) && Enabled(c, t, step) && u == Do(c, t, step) && Shape(c, u)
    ensures Runs(c, s, steps + [step], u)
    decreases |steps|
  {
    if steps == [] {
      assert ([] + [step])[1..] == [];
    } else {
      assert (steps + [step])[1..] == steps[1..] + [step];
      RunOn(c, Do(c, s, steps[0]), steps[1..], t, step, u);
    }
  }

  /** A transaction with a good signature and a nonce above the stored one comes to its worker. */
  lemma Passes(c: Config, s0: State, before: seq<Step>, s: State, tx: Tx) returns (steps: seq<Step>, t: State)
    requires Shape(c, s) && Runs(c, s0, before, s) && c.User(tx.uid) && tx.nonce > s.nonces[tx.uid - 1]
    ensures Runs(c, s0, steps, t) && Shape(c, t)
    ensures var w := c.txRouter.Route(tx.uid);
      t == s.(prepare := s.prepare[w := s.prepare[w] + [tx]], pushed := s.pushed + multiset{tx})
  {
    var a := Do(c, s, Push(tx));
    var b := Do(c, a, Decode(tx));
    t := Do(c, b, Verify(tx, true));
    assert s.decoding + multiset{tx} - multiset{tx} == s.decoding;
    assert s.verifying + multiset{tx} - multiset{tx} == s.verifying;
    hide Runs;
    RunOn(c, s0, before, s, Push(tx), a);
    RunOn(c, s0, before + [Push(tx)], a, Decode(tx), b);
    steps := before + [Push(tx)] + [Decode(tx)];
    RunOn(c, s0, steps, b, Verify(tx, true), t);
    steps := steps + [Verify(tx, true)];
  }

  /** The only worker is idle, and the only executor's channel is empty. */
  predicate Waiting(s: State, nonce: U64, jobs: seq<Tx>, done: seq<Tx>) {
    Shape(SMALL, s) && s.nonces == [nonce] && s.prepare == [jobs] && s.execution == [[]] && s.executed == [done] &&
    s.workers[0].phase.Idle? && s.workers[0].Queue(1) == []
  }

  /** The worker takes its next job, and the executor what it sends. */
  lemma Dispatches(s0: State, before: seq<Step>, s: State, nonce: U64, tx: Tx, jobs: seq<Tx>, done: seq<Tx>)
    returns (steps: seq<Step>, t: State)
    requires Waiting(s, nonce, [tx] + jobs, done) && tx.uid == 1 && tx.nonce >= Expected(nonce)
    requires Runs(SMALL, s0, before, s)
    ensures Runs(SMALL, s0, steps, t) && Waiting(t, tx.nonce, jobs, done + [tx])
  {
    var c := SMALL;
    var a := ReceivesTx(s, nonce, tx, jobs, done);
    var b, d := SendsTx(a, tx, nonce);
    var e := Do(c, d, Finish(0));
    assert [tx][1..] == [];
    t := Do(c, e, Execute(0));
    assert t.execution == [[]] && t.executed == [done + [tx]];
    hide Runs, DoReceive, DoSend, DoStore, DoFinish, DoExecute, PhaseShape;
    RunOn(c, s0, before, s, Receive(0), a);
    steps := before + [Receive(0)];
    RunOn(c, s0, steps, a, Send(0), b);
    steps := steps + [Send(0)];
    RunOn(c, s0, steps, b, Store(0), d);
    steps := steps + [Store(0)];
    RunOn(c, s0, steps, d, Finish(0), e);
    steps := steps + [Finish(0)];
    RunOn(c, s0, steps, e, Execute(0), t);
    steps := steps + [Execute(0)];
  }

  lemma SendsTx(a: State, tx: Tx, nonce: U64) returns (b: State, d: State)
    requires Shape(SMALL, a) && |a.workers| == 1 && a.workers[0].phase == Draining(1, 0, Expected(nonce))
    requires a.workers[0].Queue(1) == [tx] && tx.nonce >= Expected(nonce) && tx.uid == 1 && a.execution == [[]]
    ensures Enabled(SMALL, a, Send(0)) && b == Do(SMALL, a, Send(0)) && Shape(SMALL, b)
    ensures Enabled(SMALL, b, Store(0)) && d == Do(SMALL, b, Store(0)) && Shape(SMALL, d)
    ensures d.workers == [Worker(a.workers[0].buffers, Draining(1, 1, tx.nonce))] && d.nonces == [tx.nonce]
    ensures d.prepare == a.prepare && d.execution == [[tx]] && d.executed == a.executed
  {
    assert a.execution[0] + [tx] == [tx];
    b := Do(SMALL, a, Send(0));
    d := Do(SMALL, b, Store(0));
    assert d.execution == [[tx]];
  }

  lemma ReceivesTx(s: State, nonce: U64, tx: Tx, jobs: seq<Tx>, done: seq<Tx>) returns (a: State)
    requires Waiting(s, nonce, [tx] + jobs, done) && tx.uid == 1 && tx.nonce >= Expected(nonce)
    ensures Enabled(SMALL, s, Receive(0)) && a == Do(SMALL, s, Receive(0)) && Shape(SMALL, a)
    ensures a.prepare == [jobs] && a.nonces == [nonce] && a.execution == [[]] && a.executed == [done]
    ensures |a.workers| == 1 && a.workers[0].phase == Draining(1, 0, Expected(nonce)) && a.workers[0].Queue(1) == [tx]
  {
    assert Insert([], tx) == [tx];
    assert ([tx] + jobs)[1..] == jobs;
    a := Do(SMALL, s, Receive(0));
  }

  lemma BothWait() returns (steps: seq<Step>, t: State)
    ensures SMALL.Valid() && Runs(SMALL, Start(SMALL), steps, t) && Waiting(t, 5, [LAST] + [LATE], [])
  {
    var s := Start(SMALL);
    RunNothing(SMALL, s);
    assert s.prepare == [[]] && s.workers == [Worker(map[], Idle)] && s.execution == [[]];
    hide Runs;
    var a;
    steps, a := Passes(SMALL, s, [], s, LAST);
    assert s.prepare[0] + [LAST] == [LAST];
    assert a.prepare == [[LAST]];
    steps, t := Passes(SMALL, s, steps, a, LATE);
    assert t.prepare == [[LAST] + [LATE]];
  }

  /** Both transactions pass while the stored nonce is 5; then the executor gets nonce 2^64 - 1, and after it nonce
      7. */
  lemma OutOfOrder() returns (steps: seq<Step>, t: State)
    ensures SMALL.Valid() && Runs(SMALL, Start(SMALL), steps, t) && t.executed == [[LAST, LATE]]
  {
    var s := Start(SMALL);
    var a, b;
    steps, a := BothWait();
    hide Runs, Waiting, Start;
    steps, b := Dispatches(s, steps, a, 5, LAST, [LATE], []);
    assert [LATE] == [LATE] + [];
    steps, t := Dispatches(s, steps, b, U64_MAX, LATE, [], [] + [LAST]);
    assert [] + [LAST] + [LATE] == [LAST, LATE];
    WaitingDone(t, 7, [], [LAST, LATE]);
  }

  lemma WaitingDone(s: State, nonce: U64, jobs: seq<Tx>, done: seq<Tx>)
    requires Waiting(s, nonce, jobs, done)
    ensures s.executed == [done]
  {
  }

  lemma RunNothing(c: Config, s: State)
    requires Shape(c, s)
    ensures Runs(c, s, [], s)
  {
  }
}
