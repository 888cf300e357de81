/** The order of one user's nonces.

    A prepare worker dispatches an arriving transaction when its nonce is not below the expected one, which is the last
    dispatched nonce plus one, in 64 bits: after the nonce 2^64 - 1 the expected nonce is 0, and everything passes.
 */
module NonceOrder {
  import opened Words

  /** `user.nonce.Load() + 1` */
  function Expected(level: U64): U64 {
    if level == U64_MAX then 0 else level + 1
  }

  /** The user's stored nonce after these arrivals. */
  function Level(init: U64, arrivals: seq<U64>): U64 {
    if arrivals == [] then init else
      var level, n := Level(init, arrivals[..|arrivals| - 1]), arrivals[|arrivals| - 1];
      if n >= Expected(level) then n else level
  }

  /** The nonces that get through. */
  function Dispatched(init: U64, arrivals: seq<U64>): seq<U64> {
    if arrivals == [] then [] else
      var before, n := arrivals[..|arrivals| - 1], arrivals[|arrivals| - 1];
      Dispatched(init, before) + if n >= Expected(Level(init, before)) then [n] else []
  }

  /** The strict running maxima of a sequence, above a first value. */
  function Maxima(init: U64, arrivals: seq<U64>): seq<U64> {
    if arrivals == [] then [] else
      var before, n := arrivals[..|arrivals| - 1], arrivals[|arrivals| - 1];
      Maxima(init, before) + if Exceeds(n, init, before) then [n] else []
  }

  predicate Exceeds(n: U64, init: U64, before: seq<U64>) {
    n > init && forall i :: 0 <= i < |before| ==> n > before[i]
  }

  /** Nothing arrives after the greatest nonce. */
  predicate Clean(init: U64, arrivals: seq<U64>) {
    (arrivals != [] ==> init != U64_MAX) && forall i :: 0 <= i < |arrivals| - 1 ==> arrivals[i] != U64_MAX
  }

  predicate Increasing(s: seq<U64>) {
    forall i, j :: 0 <= i < j < |s| ==> s[i] < s[j]
  }

  lemma {:induction false} LevelSeen(init: U64, arrivals: seq<U64>)
    ensures Level(init, arrivals) == init || Level(init, arrivals) in arrivals
    ensures ([init] + Dispatched(init, arrivals))[|Dispatched(init, arrivals)|] == Level(init, arrivals)
  {
    if arrivals != [] { LevelSeen(init, arrivals[..|arrivals| - 1]); }
  }

  lemma CleanBefore(init: U64, arrivals: seq<U64>)
    requires arrivals != [] && Clean(init, arrivals)
    ensures Clean(init, arrivals[..|arrivals| - 1])
    ensures Level(init, arrivals[..|arrivals| - 1]) != U64_MAX
  {
    LevelSeen(init, arrivals[..|arrivals| - 1]);
  }

  /** As long as the nonces do not wrap around, the stored nonce is the maximum. */
  lemma {:induction false} LevelIsMaximum(init: U64, arrivals: seq<U64>)
    requires Clean(init, arrivals)
    ensures Level(init, arrivals) >= init
    ensures forall i :: 0 <= i < |arrivals| ==> Level(init, arrivals) >= arrivals[i]
  {
    if arrivals != [] {
      CleanBefore(init, arrivals);
      LevelIsMaximum(init, arrivals[..|arrivals| - 1]);
    }
  }

  lemma {:induction false} CleanGivesMaxima(init: U64, arrivals: seq<U64>)
    requires Clean(init, arrivals)
    ensures Dispatched(init, arrivals) == Maxima(init, arrivals)
  {
    if arrivals != [] {
      var before := arrivals[..|arrivals| - 1];
      CleanBefore(init, arrivals);
      CleanGivesMaxima(init, before);
      LevelIsMaximum(init, before);
      LevelSeen(init, before);
    }
  }

  lemma {:induction false} MoreThanMaxima(init: U64, arrivals: seq<U64>)
    ensures |Dispatched(init, arrivals)| >= |Maxima(init, arrivals)|
    ensures !Clean(init, arrivals) ==> |Dispatched(init, arrivals)| > |Maxima(init, arrivals)|
  {
    if arrivals != [] {
      var before := arrivals[..|arrivals| - 1];
      MoreThanMaxima(init, before);
      LevelSeen(init, before);
      if Clean(init, before) && !Clean(init, arrivals) { WrapsAround(init, arrivals); }
    }
  }

  /** The first arrival behind the greatest nonce. */
  lemma WrapsAround(init: U64, arrivals: seq<U64>)
    requires arrivals != [] && Clean(init, arrivals[..|arrivals| - 1]) && !Clean(init, arrivals)
    ensures Level(init, arrivals[..|arrivals| - 1]) == U64_MAX
    ensures !Exceeds(arrivals[|arrivals| - 1], init, arrivals[..|arrivals| - 1])
  {
    var before := arrivals[..|arrivals| - 1];
    LevelIsMaximum(init, before);
    if before != [] && init != U64_MAX {
      var i :| 0 <= i < |arrivals| - 1 && arrivals[i] == U64_MAX;
      assert before[i] == U64_MAX;
    }
  }

  /** The dispatched nonces are the strict running maxima exactly when nothing arrives after the greatest nonce. */
  lemma DispatchedAreMaxima(init: U64, arrivals: seq<U64>)
    ensures Dispatched(init, arrivals) == Maxima(init, arrivals) <==> Clean(init, arrivals)
  {
    if Clean(init, arrivals) { CleanGivesMaxima(init, arrivals); } else { MoreThanMaxima(init, arrivals); }
  }

  /** They increase under the same condition. */
  lemma {:induction false} DispatchedIncrease(init: U64, arrivals: seq<U64>)
    ensures Increasing([init] + Dispatched(init, arrivals)) <==> Clean(init, arrivals)
  {
    if arrivals != [] {
      var before, n := arrivals[..|arrivals| - 1], arrivals[|arrivals| - 1];
      var d, e := [init] + Dispatched(init, before), [init] + Dispatched(init, arrivals);
      DispatchedIncrease(init, before);
      LevelSeen(init, before);
      assert e == d || e == d + [n];
      assert forall i :: 0 <= i < |d| ==> e[i] == d[i];
      if Clean(init, arrivals) {
        CleanBefore(init, arrivals);
      } else if Clean(init, before) {
        WrapsAround(init, arrivals);
        assert e[|d| - 1] == U64_MAX && e[|d|] == n;
      } else {
        var i, j :| 0 <= i < j < |d| && d[i] >= d[j];
        assert e[i] >= e[j];
      }
    }
  }

  /** The greatest nonce lets a replayed transaction through. */
  lemma WrapExample()
    ensures Dispatched(5, [U64_MAX, 7, 7]) == [U64_MAX, 7]
    ensures Maxima(5, [U64_MAX, 7, 7]) == [U64_MAX]
    ensures Dispatched(U64_MAX, [U64_MAX]) == [U64_MAX] && Maxima(U64_MAX, [U64_MAX]) == []
  {
    var a: seq<U64> := [U64_MAX, 7, 7];
    assert a[..2] == [U64_MAX, 7] && a[..2][..1] == [U64_MAX];
    var b: seq<U64> := [U64_MAX, 7];
    assert b[..1] == [U64_MAX];
    var c: seq<U64> := [U64_MAX];
    assert c[..0] == [];
    assert Level(5, c) == U64_MAX && Dispatched(5, c) == [U64_MAX] && Maxima(5, c) == [U64_MAX];
    assert Level(5, b) == 7 && Dispatched(5, b) == [U64_MAX, 7] && Maxima(5, b) == [U64_MAX];
  }

  /** A later stored nonce is not smaller. */
  lemma {:induction false} LevelGrows(init: U64, a: seq<U64>, b: seq<U64>)
    requires Clean(init, a + b)
    ensures Level(init, a) <= Level(init, a + b)
    decreases |b|
  {
    if b == [] {
      assert a + b == a;
    } else {
      assert (a + b)[..|a + b| - 1] == a + b[..|b| - 1];
      CleanBefore(init, a + b);
      LevelGrows(init, a, b[..|b| - 1]);
    }
  }

  /** Dropping early a nonce that is not above the stored one changes nothing that is dispatched, wherever in the later
      arrivals it would have come. */
  lemma {:induction false} EarlyDropHarmless(init: U64, a: seq<U64>, b: seq<U64>, n: U64, c: seq<U64>)
    requires n <= Level(init, a) && Clean(init, a + b + [n] + c)
    ensures Dispatched(init, a + b + [n] + c) == Dispatched(init, a + b + c)
    ensures Level(init, a + b + [n] + c) == Level(init, a + b + c)
    decreases |c|
  {
    var with, without := a + b + [n] + c, a + b + c;
    CleanBefore(init, with);
    if c == [] {
      assert with[..|with| - 1] == a + b == without;
      LevelGrows(init, a, b);
    } else {
      var c' := c[..|c| - 1];
      assert with[..|with| - 1] == a + b + [n] + c';
      assert without[..|without| - 1] == a + b + c';
      EarlyDropHarmless(init, a, b, n, c');
    }
  }

  /** At a moment when the worker has got as far as a + b, it drops what a decoder dropped after a, unless the stored
      nonce is the greatest. */
  lemma EarlyDropAgrees(init: U64, a: seq<U64>, b: seq<U64>, n: U64)
    requires n <= Level(init, a) && Clean(init, a + b)
    ensures n < Expected(Level(init, a + b)) <==> Level(init, a + b) != U64_MAX
  {
    LevelGrows(init, a, b);
  }
}
