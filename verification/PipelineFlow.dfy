/** What becomes of a transaction, over every interleaving: each stage passes on exactly what its check admits. */
module PipelineFlow {
  import opened Words
  import opened NonceOrder
  import opened PrepareQueue
  import opened Pipeline

  // ---------------------------------------------------------------- bags of transactions

  function Sum(bags: seq<multiset<Tx>>): multiset<Tx> {
    if bags == [] then multiset{} else Sum(bags[..|bags| - 1]) + bags[|bags| - 1]
  }

  /** One bag more by m. */
  lemma {:induction false} SumPut(bags: seq<multiset<Tx>>, i: nat, m: multiset<Tx>)
    requires i < |bags|
    ensures Sum(bags[i := bags[i] + m]) == Sum(bags) + m
  {
    var init, last, more := bags[..|bags| - 1], bags[|bags| - 1], bags[i := bags[i] + m];
    if i < |bags| - 1 {
      assert more[..|bags| - 1] == init[i := init[i] + m] && more[|bags| - 1] == last;
      SumPut(init, i, m);
      Swap(Sum(init), m, last);
    } else {
      assert more[..|bags| - 1] == init;
      Swap(Sum(init), last, m);
      Swap(Sum(init), m, last);
    }
  }

  lemma Swap(a: multiset<Tx>, b: multiset<Tx>, c: multiset<Tx>)
    ensures a + b + c == a + c + b == a + (b + c)
  {
  }

  lemma {:induction false} SumEmpty(bags: seq<multiset<Tx>>)
    requires forall i :: 0 <= i < |bags| ==> bags[i] == multiset{}
    ensures Sum(bags) == multiset{}
  {
    if bags != [] { SumEmpty(bags[..|bags| - 1]); }
  }

  function Bags(channels: seq<seq<Tx>>): seq<multiset<Tx>> {
    seq(|channels|, i requires 0 <= i < |channels| => multiset(channels[i]))
  }

  /** What a prepare worker has taken and not yet sent on. */
  function InHand(k: Worker): multiset<Tx> {
    match k.phase
    case Idle => multiset{}
    case Draining(uid, i, _) => multiset(k.Queue(uid)[Least(i, |k.Queue(uid)|)..])
    case Storing(uid, i) => multiset(k.Queue(uid)[Least(i + 1, |k.Queue(uid)|)..])
  }

  function Least(a: nat, b: nat): (m: nat)
    ensures m <= b
  {
    if a < b then a else b
  }

  function Hands(workers: seq<Worker>): seq<multiset<Tx>> {
    seq(|workers|, i requires 0 <= i < |workers| => InHand(workers[i]))
  }

  /** Everything that is somewhere in the pipeline, has left it, or has been dropped. */
  function Everywhere(s: State): multiset<Tx> {
    s.decoding + s.verifying + Sum(Bags(s.prepare)) + Sum(Hands(s.workers)) + Sum(Bags(s.execution))
    + Sum(Bags(s.executed)) + s.dropped
  }

  lemma ChannelPut(channels: seq<seq<Tx>>, i: nat, tx: Tx)
    requires i < |channels|
    ensures Sum(Bags(channels[i := channels[i] + [tx]])) == Sum(Bags(channels)) + multiset{tx}
  {
    SumPut(Bags(channels), i, multiset{tx});
    assert Bags(channels[i := channels[i] + [tx]]) == Bags(channels)[i := Bags(channels)[i] + multiset{tx}];
  }

  lemma ChannelTake(channels: seq<seq<Tx>>, i: nat)
    requires i < |channels| && channels[i] != []
    ensures Sum(Bags(channels)) == Sum(Bags(channels[i := channels[i][1..]])) + multiset{channels[i][0]}
  {
    var rest, tx := channels[i := channels[i][1..]], channels[i][0];
    SumPut(Bags(rest), i, multiset{tx});
    assert channels[i] == [tx] + channels[i][1..];
    assert multiset(channels[i]) == multiset(rest[i]) + multiset{tx};
    assert Bags(channels) == Bags(rest)[i := Bags(rest)[i] + multiset{tx}];
  }

  lemma HandPut(workers: seq<Worker>, i: nat, k: Worker, bag: multiset<Tx>)
    requires i < |workers| && InHand(k) == InHand(workers[i]) + bag
    ensures Sum(Hands(workers[i := k])) == Sum(Hands(workers)) + bag
  {
    hide InHand, Sum;
    SumPut(Hands(workers), i, bag);
    assert Hands(workers[i := k]) == Hands(workers)[i := Hands(workers)[i] + bag];
  }

  lemma HandTake(workers: seq<Worker>, i: nat, k: Worker, bag: multiset<Tx>)
    requires i < |workers| && InHand(workers[i]) == InHand(k) + bag
    ensures Sum(Hands(workers)) == Sum(Hands(workers[i := k])) + bag
  {
    hide InHand, Sum;
    var rest := workers[i := k];
    SumPut(Hands(rest), i, bag);
    assert Hands(workers) == Hands(rest)[i := Hands(rest)[i] + bag];
  }

  // ---------------------------------------------------------------- what happens to a transaction

  /** How often something happened to one transaction. */
  datatype Tally = Tally(
    pushed: nat,      // it came in
    admitted: nat,    // a decoder found its nonce above the stored one
    turnedAway: nat,  // a decoder did not, or did not know the user
    signed: nat,      // a verifier found its signature valid
    forged: nat,      // a verifier did not
    taken: nat,       // a prepare worker took it into the user's buffer
    stale: nat,       // a prepare worker found its nonce to be stored, or passed, by now
    sent: nat,        // it was sent to an executor
    executed: nat)    // an executor took it
  {
    function Plus(other: Tally): Tally {
      Tally(pushed + other.pushed, admitted + other.admitted, turnedAway + other.turnedAway, signed + other.signed,
            forged + other.forged, taken + other.taken, stale + other.stale, sent + other.sent,
            executed + other.executed)
    }
  }

  const NOTHING := Tally(0, 0, 0, 0, 0, 0, 0, 0, 0)

  function Once(b: bool): (n: nat) {
    if b then 1 else 0
  }

  /** The step lets the prepare worker look at this transaction. */
  predicate Meets(s: State, step: Step, tx: Tx) {
    step.Receive? && step.w < |s.prepare| && s.prepare[step.w] != [] && s.prepare[step.w][0] == tx
  }

  predicate Sends(s: State, step: Step, tx: Tx) {
    step.Send? && step.w < |s.workers| && GoesOn(s.workers[step.w]) &&
    s.workers[step.w].Queue(s.workers[step.w].phase.uid)[s.workers[step.w].phase.i] == tx
  }

  predicate Executes(s: State, step: Step, tx: Tx) {
    step.Execute? && step.e < |s.execution| && s.execution[step.e] != [] && s.execution[step.e][0] == tx
  }

  /** What one step does to the transaction. */
  function Seen(c: Config, s: State, step: Step, tx: Tx): Tally
    requires Shape(c, s)
  {
    var known := 1 <= tx.uid <= |c.init|;
    var above := known && tx.nonce > s.nonces[tx.uid - 1];
    var passed := known && tx.nonce <= s.nonces[tx.uid - 1] < U64_MAX;
    Tally(Once(step == Push(tx)), Once(step == Decode(tx) && above), Once(step == Decode(tx) && !above),
          Once(step == Verify(tx, true)), Once(step == Verify(tx, false)),
          Once(Meets(s, step, tx) && !passed), Once(Meets(s, step, tx) && passed),
          Once(Sends(s, step, tx)), Once(Executes(s, step, tx)))
  }

  /** What a run does to it. */
  function History(c: Config, s: State, steps: seq<Step>, tx: Tx): Tally
    decreases |steps|
  {
    if steps == [] || !Shape(c, s) || !Enabled(c, s, steps[0]) then NOTHING
    else Seen(c, s, steps[0], tx).Plus(History(c, Do(c, s, steps[0]), steps[1..], tx))
  }

  /** Where the transaction is afterwards, by what happened to it. */
  predicate Moves(s: State, t: State, tx: Tx, n: Tally) {
    t.pushed[tx] == s.pushed[tx] + n.pushed &&
    t.decoding[tx] + n.admitted + n.turnedAway == s.decoding[tx] + n.pushed &&
    t.verifying[tx] + n.signed + n.forged == s.verifying[tx] + n.admitted &&
    Sum(Bags(t.prepare))[tx] + n.taken + n.stale == Sum(Bags(s.prepare))[tx] + n.signed &&
    Sum(Hands(t.workers))[tx] + n.sent == Sum(Hands(s.workers))[tx] + n.taken &&
    Sum(Bags(t.execution))[tx] + n.executed == Sum(Bags(s.execution))[tx] + n.sent &&
    Sum(Bags(t.executed))[tx] == Sum(Bags(s.executed))[tx] + n.executed &&
    t.dropped[tx] == s.dropped[tx] + n.turnedAway + n.forged + n.stale
  }

  /** Only transactions of known users wait for a verifier. */
  predicate KnownVerifying(c: Config, s: State) {
    forall tx :: tx in s.verifying ==> c.User(tx.uid)
  }

  lemma MovesPush(c: Config, s: State, job: Tx, tx: Tx)
    requires Shape(c, s)
    ensures Moves(s, Do(c, s, Push(job)), tx, Seen(c, s, Push(job), tx))
  {
    hide Sum, Bags, Hands;
  }

  lemma MovesDecode(c: Config, s: State, job: Tx, tx: Tx)
    requires Shape(c, s) && job in s.decoding
    ensures Moves(s, Do(c, s, Decode(job)), tx, Seen(c, s, Decode(job), tx))
  {
    hide Sum, Bags, Hands;
  }

  lemma MovesVerify(c: Config, s: State, job: Tx, valid: bool, tx: Tx)
    requires Shape(c, s) && job in s.verifying && c.User(job.uid)
    ensures Moves(s, Do(c, s, Verify(job, valid)), tx, Seen(c, s, Verify(job, valid), tx))
  {
    hide Sum, Bags, Hands;
    if valid { ChannelPut(s.prepare, c.txRouter.Route(job.uid), job); }
  }

  lemma ReceivesOrDrops(c: Config, s: State, w: nat)
    requires Inv(c, s) && Enabled(c, s, Receive(w))
    ensures var t, tx := DoReceive(c, s, w), s.prepare[w][0];
      t.decoding == s.decoding && t.verifying == s.verifying && t.pushed == s.pushed && c.User(tx.uid) &&
      t.dropped == s.dropped + if tx.nonce < Expected(s.nonces[tx.uid - 1]) then multiset{tx} else multiset{}
  {
    assert WorkerOk(c, s, w);
  }

  /** The job leaves the channel; it is dropped, or the worker has it in its hands. */
  lemma ReceiveBags(c: Config, s: State, w: nat)
    requires Inv(c, s) && Enabled(c, s, Receive(w))
    ensures var t, job := DoReceive(c, s, w), s.prepare[w][0];
      c.User(job.uid) && var stale := job.nonce < Expected(s.nonces[job.uid - 1]);
      Sum(Bags(s.prepare)) == Sum(Bags(t.prepare)) + multiset{job} &&
      Sum(Hands(t.workers)) == Sum(Hands(s.workers)) + (if stale then multiset{} else multiset{job}) &&
      t.execution == s.execution && t.executed == s.executed
  {
    var t, job := ReceivesAtHome(c, s, w);
    var stale := job.nonce < Expected(s.nonces[job.uid - 1]);
    HandPut(s.workers, w, t.workers[w], if stale then multiset{} else multiset{job});
    ChannelTake(s.prepare, w);
    hide Sum, Bags, Hands, Inv, DoReceive, Shape;
  }

  lemma MovesReceive(c: Config, s: State, w: nat, tx: Tx)
    requires Inv(c, s) && Enabled(c, s, Receive(w))
    ensures Moves(s, Do(c, s, Receive(w)), tx, Seen(c, s, Receive(w), tx))
  {
    hide Sum, Bags, Hands, Routed, WorkerOk, UserOk, LogOk, DoReceive;
    ReceiveBags(c, s, w);
    ReceivesOrDrops(c, s, w);
  }

  lemma MovesSend(c: Config, s: State, w: nat, tx: Tx)
    requires Inv(c, s) && Enabled(c, s, Send(w))
    ensures Moves(s, Do(c, s, Send(w)), tx, Seen(c, s, Send(w), tx))
  {
    hide Sum, Bags, Hands;
    var t, job := Pipeline.Sends(c, s, w);
    HandTake(s.workers, w, t.workers[w], multiset{job});
    ChannelPut(s.execution, c.execRouter.Route(job.uid, job.market), job);
  }

  lemma MovesStore(c: Config, s: State, w: nat, tx: Tx)
    requires Inv(c, s) && Enabled(c, s, Store(w))
    ensures Moves(s, Do(c, s, Store(w)), tx, Seen(c, s, Store(w), tx))
  {
    hide Sum, Bags, Hands, Routed, UserOk, LogOk;
    HandPut(s.workers, w, DoStore(c, s, w).workers[w], multiset{});
  }

  lemma MovesFinish(c: Config, s: State, w: nat, tx: Tx)
    requires Inv(c, s) && Enabled(c, s, Finish(w))
    ensures Moves(s, Do(c, s, Finish(w)), tx, Seen(c, s, Finish(w), tx))
  {
    hide Sum, Bags, Hands;
    assert WorkerOk(c, s, w);
    HandPut(s.workers, w, DoFinish(c, s, w).workers[w], multiset{});
  }

  lemma MovesExecute(c: Config, s: State, e: nat, tx: Tx)
    requires Shape(c, s) && Enabled(c, s, Execute(e))
    ensures Moves(s, Do(c, s, Execute(e)), tx, Seen(c, s, Execute(e), tx))
  {
    hide Sum, Bags, Hands;
    ChannelTake(s.execution, e);
    ChannelPut(s.executed, e, s.execution[e][0]);
  }

  lemma StepMoves(c: Config, s: State, step: Step, tx: Tx)
    requires Inv(c, s) && KnownVerifying(c, s) && Enabled(c, s, step)
    ensures Moves(s, Do(c, s, step), tx, Seen(c, s, step, tx))
  {
    hide Routed, WorkerOk, UserOk, LogOk, Moves, Seen, DoDecode, DoVerify, DoReceive, DoSend, DoStore, DoFinish,
      DoExecute;
    match step
    case Push(job) => MovesPush(c, s, job, tx);
    case Decode(job) => MovesDecode(c, s, job, tx);
    case Verify(job, valid) => MovesVerify(c, s, job, valid, tx);
    case Receive(w) => MovesReceive(c, s, w, tx);
    case Send(w) => MovesSend(c, s, w, tx);
    case Store(w) => MovesStore(c, s, w, tx);
    case Finish(w) => MovesFinish(c, s, w, tx);
    case Execute(e) => MovesExecute(c, s, e, tx);
  }

  lemma StepKeepsKnown(c: Config, s: State, step: Step)
    requires Shape(c, s) && KnownVerifying(c, s) && Enabled(c, s, step)
    ensures KnownVerifying(c, Do(c, s, step))
  {
  }

  lemma MovesOn(s: State, u: State, t: State, tx: Tx, n: Tally, more: Tally)
    requires Moves(s, u, tx, n) && Moves(u, t, tx, more)
    ensures Moves(s, t, tx, n.Plus(more))
  {
  }

  lemma {:induction false} RunMoves(c: Config, s: State, steps: seq<Step>, t: State, tx: Tx)
    requires Inv(c, s) && KnownVerifying(c, s) && Runs(c, s, steps, t)
    ensures Moves(s, t, tx, History(c, s, steps, tx))
    decreases |steps|
  {
    hide Moves, KnownVerifying, Enabled, Seen, Tally.Plus, Do;
    if steps == [] {
      Still(s, tx);
    } else {
      var u := Do(c, s, steps[0]);
      Keeps(c, s, steps[0]);
      StepKeepsKnown(c, s, steps[0]);
      StepMoves(c, s, steps[0], tx);
      RunMoves(c, u, steps[1..], t, tx);
      MovesOn(s, u, t, tx, Seen(c, s, steps[0], tx), History(c, u, steps[1..], tx));
    }
  }

  lemma Still(s: State, tx: Tx)
    ensures Moves(s, s, tx, NOTHING)
  {
  }

  lemma StartsEmpty(c: Config)
    requires c.Valid()
    ensures var s := Start(c);
      Inv(c, s) && KnownVerifying(c, s) &&
      multiset{} == s.pushed == s.decoding == s.verifying == s.dropped == Sum(Bags(s.prepare)) ==
        Sum(Hands(s.workers)) == Sum(Bags(s.execution)) == Sum(Bags(s.executed))
  {
    var s := Start(c);
    StartsOk(c);
    SumEmpty(Bags(s.prepare));
    SumEmpty(Hands(s.workers));
    SumEmpty(Bags(s.execution));
    SumEmpty(Bags(s.executed));
  }

  /** In every interleaving, for every transaction: what has left the decoders upwards was admitted, what has left the
      verifiers was signed, what a worker holds, or has sent, was taken; and it was dropped as often as it was turned
      away, forged or stale. */
  lemma Flow(c: Config, steps: seq<Step>, t: State, tx: Tx)
    requires c.Valid() && Runs(c, Start(c), steps, t)
    ensures var n := History(c, Start(c), steps, tx);
      t.pushed[tx] == n.pushed == t.decoding[tx] + n.admitted + n.turnedAway &&
      n.admitted == t.verifying[tx] + n.signed + n.forged &&
      n.signed == Sum(Bags(t.prepare))[tx] + n.taken + n.stale &&
      n.taken == Sum(Hands(t.workers))[tx] + n.sent &&
      n.sent == Sum(Bags(t.execution))[tx] + n.executed &&
      n.executed == Sum(Bags(t.executed))[tx] &&
      t.dropped[tx] == n.turnedAway + n.forged + n.stale
  {
    hide Sum, Bags, Hands, Start, Inv, KnownVerifying, History, Runs;
    StartsEmpty(c);
    RunMoves(c, Start(c), steps, t, tx);
  }

  lemma {:induction false} RunKeepsKnown(c: Config, s: State, steps: seq<Step>, t: State)
    requires KnownVerifying(c, s) && Runs(c, s, steps, t)
    ensures Shape(c, t) && KnownVerifying(c, t)
    decreases |steps|
  {
    hide KnownVerifying, Enabled, Do;
    if steps != [] {
      StepKeepsKnown(c, s, steps[0]);
      RunKeepsKnown(c, Do(c, s, steps[0]), steps[1..], t);
    }
  }

  /** In every interleaving, a valid signature takes a transaction that waits for a verifier to the channel of its
      user's worker, behind what is there, and nowhere else; any other signature drops it. */
  lemma VerifyLaw(c: Config, steps: seq<Step>, s: State, tx: Tx, valid: bool)
    requires c.Valid() && Runs(c, Start(c), steps, s) && Shape(c, s) && tx in s.verifying
    ensures 1 <= tx.uid <= |c.init|
    ensures var t, w := Do(c, s, Verify(tx, valid)), c.txRouter.Route(tx.uid);
      t.prepare == (if valid then s.prepare[w := s.prepare[w] + [tx]] else s.prepare) &&
      t.dropped == (if valid then s.dropped else s.dropped + multiset{tx}) &&
      t.verifying + multiset{tx} == s.verifying
  {
    RunKeepsKnown(c, Start(c), steps, s);
  }

  /** In every interleaving, every transaction that came in is in one place, as often as it came in. */
  lemma NothingLost(c: Config, steps: seq<Step>, t: State)
    requires c.Valid() && Runs(c, Start(c), steps, t)
    ensures t.pushed == Everywhere(t)
  {
    forall tx ensures t.pushed[tx] == Everywhere(t)[tx] {
      Flow(c, steps, t, tx);
    }
  }

  /** Whatever stands behind the verifiers has a valid signature: a transaction is there, or executed, at most as often
      as a verifier found its signature valid. */
  lemma OnlySigned(c: Config, steps: seq<Step>, t: State, tx: Tx)
    requires c.Valid() && Runs(c, Start(c), steps, t)
    ensures Sum(Bags(t.prepare))[tx] + Sum(Hands(t.workers))[tx] + Sum(Bags(t.execution))[tx]
            + Sum(Bags(t.executed))[tx] <= Signatures(steps, tx)
  {
    Flow(c, steps, t, tx);
    SignedAre(c, Start(c), steps, t, tx);
  }

  /** How often the run found the signature of this transaction valid. */
  function Signatures(steps: seq<Step>, tx: Tx): nat {
    if steps == [] then 0 else Once(steps[0] == Verify(tx, true)) + Signatures(steps[1..], tx)
  }

  lemma {:induction false} SignedAre(c: Config, s: State, steps: seq<Step>, t: State, tx: Tx)
    requires Runs(c, s, steps, t)
    ensures History(c, s, steps, tx).signed == Signatures(steps, tx)
    decreases |steps|
  {
    hide Do, Enabled, Meets, Sends, Executes;
    if steps != [] { SignedAre(c, Do(c, s, steps[0]), steps[1..], t, tx); }
  }

  // ---------------------------------------------------------------- the recorded histories

  /** The nonce that the step brings to this user's prepare worker. */
  function Brings(s: State, step: Step, uid: U64): seq<U64> {
    if step.Receive? && step.w < |s.prepare| && s.prepare[step.w] != [] && s.prepare[step.w][0].uid == uid
    then [s.prepare[step.w][0].nonce] else []
  }

  /** The transaction of this user that the step sends to an executor. */
  function Emits(s: State, step: Step, uid: U64): seq<Tx> {
    if step.Send? && step.w < |s.workers| && GoesOn(s.workers[step.w]) then
      var k := s.workers[step.w];
      var tx := k.Queue(k.phase.uid)[k.phase.i];
      if tx.uid == uid then [tx] else []
    else []
  }

  /** The nonces of the user's transactions that its prepare worker takes from its channel during a run. */
  function Received(c: Config, s: State, steps: seq<Step>, uid: U64): seq<U64>
    decreases |steps|
  {
    if steps == [] || !Shape(c, s) || !Enabled(c, s, steps[0]) then []
    else Brings(s, steps[0], uid) + Received(c, Do(c, s, steps[0]), steps[1..], uid)
  }

  /** The user's transactions that are sent to executors during a run. */
  function SentOn(c: Config, s: State, steps: seq<Step>, uid: U64): seq<Tx>
    decreases |steps|
  {
    if steps == [] || !Shape(c, s) || !Enabled(c, s, steps[0]) then []
    else Emits(s, steps[0], uid) + SentOn(c, Do(c, s, steps[0]), steps[1..], uid)
  }

  lemma StepRecords(c: Config, s: State, step: Step, uid: U64)
    requires Inv(c, s) && Enabled(c, s, step) && c.User(uid)
    ensures Shape(c, Do(c, s, step))
    ensures Do(c, s, step).arrived[uid - 1] == s.arrived[uid - 1] + Brings(s, step, uid)
    ensures Do(c, s, step).dispatched[uid - 1] == s.dispatched[uid - 1] + Emits(s, step, uid)
  {
    hide Routed, WorkerOk, UserOk, LogOk, DoSend, DoReceive;
    Keeps(c, s, step);
    if step.Send? {
      var t, tx := Pipeline.Sends(c, s, step.w);
    } else if step.Receive? {
      var t, tx := ReceivesAtHome(c, s, step.w);
    }
  }

  lemma {:induction false} RunRecords(c: Config, s: State, steps: seq<Step>, t: State, uid: U64)
    requires Inv(c, s) && Runs(c, s, steps, t) && c.User(uid)
    ensures Shape(c, t)
    ensures t.arrived[uid - 1] == s.arrived[uid - 1] + Received(c, s, steps, uid)
    ensures t.dispatched[uid - 1] == s.dispatched[uid - 1] + SentOn(c, s, steps, uid)
    decreases |steps|
  {
    hide Routed, WorkerOk, UserOk, LogOk, Do, Enabled, Brings, Emits;
    if steps != [] {
      Keeps(c, s, steps[0]);
      StepRecords(c, s, steps[0], uid);
      RunRecords(c, Do(c, s, steps[0]), steps[1..], t, uid);
    }
  }

  /** The recorded arrivals and dispatches of a user are those of the run, in order. */
  lemma Recorded(c: Config, steps: seq<Step>, t: State, uid: U64)
    requires c.Valid() && Runs(c, Start(c), steps, t) && c.User(uid)
    ensures Shape(c, t)
    ensures t.arrived[uid - 1] == Received(c, Start(c), steps, uid)
    ensures t.dispatched[uid - 1] == SentOn(c, Start(c), steps, uid)
  {
    StartsOk(c);
    RunRecords(c, Start(c), steps, t, uid);
  }
}
