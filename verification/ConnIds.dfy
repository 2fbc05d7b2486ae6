/**
 * The wrapping connection-id counter shared by both connection managers
 * (baselib/net/thread_local_conn_manager.cc, lines 10-21; baselib/net/io_thread_pool_manager.cc, lines 61-69).
 * The modulus is a parameter; the source's is 2^32.
 *
 * The loop advances the counter once more when it wraps to 0 but still offers 0 as the id, so after the first
 * wrap the ids on offer are 0, 2, 3, ..., modulus - 1, over and over: a ring of modulus - 1 ids without 1.
 */
module ConnIds {
  const U32: nat := 0x1_0000_0000

  /** One iteration of the allocation loop: the id it tries and the counter it leaves. */
  datatype Try = Try(id: nat, counter: nat)

  function TryNext(modulus: nat, counter: nat): (t: Try)
    requires 2 <= modulus && counter < modulus
    ensures t.id < modulus && 1 <= t.counter < modulus
    ensures t.id == 0 <==> counter == modulus - 1
  {
    var id := if counter + 1 == modulus then 0 else counter + 1;
    Try(id, if id == 0 then 1 else id)
  }

  /** The counter after n iterations. */
  function CounterAt(modulus: nat, counter: nat, n: nat): (c: nat)
    requires 2 <= modulus && counter < modulus
    ensures c < modulus && (n > 0 || counter > 0 ==> c > 0)
  {
    if n == 0 then counter else TryNext(modulus, CounterAt(modulus, counter, n - 1)).counter
  }

  /** The id iteration n tries, counted from 0. */
  function IdAt(modulus: nat, counter: nat, n: nat): (id: nat)
    requires 2 <= modulus && counter < modulus
    ensures id < modulus
  {
    TryNext(modulus, CounterAt(modulus, counter, n)).id
  }

  lemma {:induction false} CounterAtSum(modulus: nat, counter: nat, a: nat, b: nat)
    requires 2 <= modulus && counter < modulus
    ensures CounterAt(modulus, counter, a + b) == CounterAt(modulus, CounterAt(modulus, counter, a), b)
    decreases b
  {
    if b > 0 { CounterAtSum(modulus, counter, a, b - 1); }
  }

  lemma IdAtSum(modulus: nat, counter: nat, a: nat, b: nat)
    requires 2 <= modulus && counter < modulus
    ensures IdAt(modulus, counter, a + b) == IdAt(modulus, CounterAt(modulus, counter, a), b)
  {
    CounterAtSum(modulus, counter, a, b);
  }

  lemma {:induction false} WithinOneLap(modulus: nat, counter: nat, n: nat)
    requires 2 <= modulus && 1 <= counter < modulus && n < modulus
    ensures CounterAt(modulus, counter, n) == if counter + n < modulus then counter + n else counter + n - (modulus - 1)
    decreases n
  {
    if n > 0 {
      WithinOneLap(modulus, counter, n - 1);
    }
  }

  /** Whatever counter a manager has reached, an id comes round again only after modulus - 1 iterations. */
  lemma NoEarlyRepeat(modulus: nat, counter: nat, i: nat, j: nat)
    requires 2 <= modulus && counter < modulus
    requires i < j < i + modulus - 1
    ensures IdAt(modulus, counter, i) != IdAt(modulus, counter, j)
  {
    var c := CounterAt(modulus, counter, i);
    IdAtSum(modulus, counter, i, j - i);
    assert IdAt(modulus, counter, i) == IdAt(modulus, c, 0);
    if c == 0 {
      CounterAtSum(modulus, 0, 1, j - i - 1);
      assert CounterAt(modulus, 0, 1) == 1;
      WithinOneLap(modulus, 1, j - i - 1);
    } else {
      WithinOneLap(modulus, c, j - i);
    }
  }

  /** The bound is tight: from the first iteration on, an id comes back after exactly modulus - 1 iterations. */
  lemma RepeatsAfterLap(modulus: nat, counter: nat, i: nat)
    requires 2 <= modulus && counter < modulus && (counter > 0 || i > 0)
    ensures CounterAt(modulus, counter, i + modulus - 1) == CounterAt(modulus, counter, i)
    ensures IdAt(modulus, counter, i + modulus - 1) == IdAt(modulus, counter, i)
  {
    CounterAtSum(modulus, counter, i, modulus - 1);
    WithinOneLap(modulus, CounterAt(modulus, counter, i), modulus - 1);
  }

  /** The iterations of a number of laps. */
  function LapSteps(lap: nat, laps: nat): nat { if laps == 0 then 0 else LapSteps(lap, laps - 1) + lap }

  /** The laps that fit into a number of iterations. */
  lemma {:induction false} WholeLaps(lap: nat, steps: nat) returns (laps: nat)
    requires lap > 0
    ensures LapSteps(lap, laps) <= steps < LapSteps(lap, laps) + lap && (steps >= lap ==> laps > 0)
    decreases steps
  {
    if steps < lap { return 0; }
    laps := WholeLaps(lap, steps - lap);
    laps := laps + 1;
  }

  /** After any number of laps, too, an id comes back. */
  lemma {:induction false} RepeatsAfterLaps(modulus: nat, counter: nat, i: nat, laps: nat)
    requires 2 <= modulus && counter < modulus && (counter > 0 || i > 0)
    ensures IdAt(modulus, counter, i + LapSteps(modulus - 1, laps)) == IdAt(modulus, counter, i)
    decreases laps
  {
    if laps > 0 {
      RepeatsAfterLap(modulus, counter, i + LapSteps(modulus - 1, laps - 1));
      RepeatsAfterLaps(modulus, counter, i, laps - 1);
    }
  }

  /**
   * The ids on offer from the start: 1, 2, ..., modulus - 1, then 0, and from then on what was on offer a lap before.
   * No id after the first is 1.
   */
  lemma {:induction false} IdSequence(modulus: nat, n: nat)
    requires 2 <= modulus
    ensures n < modulus - 1 ==> IdAt(modulus, 0, n) == n + 1
    ensures n == modulus - 1 ==> IdAt(modulus, 0, n) == 0
    ensures n >= modulus ==> IdAt(modulus, 0, n) == IdAt(modulus, 0, n - (modulus - 1))
    ensures n > 0 ==> IdAt(modulus, 0, n) != 1
    decreases n
  {
    if n >= modulus {
      RepeatsAfterLap(modulus, 0, n - (modulus - 1));
      IdSequence(modulus, n - (modulus - 1));
    } else if n > 0 {
      CounterAtSum(modulus, 0, 1, n - 1);
      WithinOneLap(modulus, 1, n - 1);
    }
  }

  // ----- allocation -----

  /** Some iteration of the loop finds an id that is not live. */
  ghost predicate CanAllocate(modulus: nat, counter: nat, live: set<nat>)
    requires 2 <= modulus && counter < modulus
  {
    exists n: nat :: n < modulus && IdAt(modulus, counter, n) !in live
  }

  /** Iteration n is the one that ends the loop. */
  ghost predicate EndsAt(modulus: nat, counter: nat, live: set<nat>, n: nat)
    requires 2 <= modulus && counter < modulus
  {
    IdAt(modulus, counter, n) !in live && forall i: nat :: i < n ==> IdAt(modulus, counter, i) in live
  }

  ghost function Search(modulus: nat, counter: nat, live: set<nat>, from: nat): (n: nat)
    requires 2 <= modulus && counter < modulus
    requires exists k: nat :: from <= k < modulus && IdAt(modulus, counter, k) !in live
    requires forall i: nat :: i < from ==> IdAt(modulus, counter, i) in live
    ensures EndsAt(modulus, counter, live, n)
    decreases modulus - from
  {
    if IdAt(modulus, counter, from) !in live then from else Search(modulus, counter, live, from + 1)
  }

  /** The iteration that ends the loop. */
  ghost function Ending(modulus: nat, counter: nat, live: set<nat>): (n: nat)
    requires 2 <= modulus && counter < modulus && CanAllocate(modulus, counter, live)
    ensures EndsAt(modulus, counter, live, n)
  {
    Search(modulus, counter, live, 0)
  }

  lemma EndingUnique(modulus: nat, counter: nat, live: set<nat>, n: nat)
    requires 2 <= modulus && counter < modulus && CanAllocate(modulus, counter, live)
    requires EndsAt(modulus, counter, live, n)
    ensures n == Ending(modulus, counter, live)
  {
    var e := Ending(modulus, counter, live);
    assert !(e < n) && !(n < e);
  }

  /** One pass through the loop body is one step of the ring, and iteration `last` is the one that ends the loop. */
  lemma LoopStep(modulus: nat, start: nat, n: nat, last: nat, id: nat, counter: nat, live: set<nat>)
    requires 2 <= modulus && start < modulus && EndsAt(modulus, start, live, last) && n <= last
    requires var c := CounterAt(modulus, start, n);
      id == (if c + 1 == modulus then 0 else c + 1) && counter == if id == 0 then 1 else id
    ensures id == IdAt(modulus, start, n) && counter == CounterAt(modulus, start, n + 1)
    ensures id !in live <==> n == last
  {
    if n < last { assert IdAt(modulus, start, n) in live; }
  }

  /** The first n ids tried, for n up to a lap, are n different ids. */
  ghost function Tried(modulus: nat, counter: nat, n: nat): set<nat>
    requires 2 <= modulus && counter < modulus
  {
    if n == 0 then {} else Tried(modulus, counter, n - 1) + {IdAt(modulus, counter, n - 1)}
  }

  lemma {:induction false} TriedMember(modulus: nat, counter: nat, n: nat, x: nat) returns (i: nat)
    requires 2 <= modulus && counter < modulus && x in Tried(modulus, counter, n)
    ensures i < n && IdAt(modulus, counter, i) == x
    decreases n
  {
    if x == IdAt(modulus, counter, n - 1) {
      i := n - 1;
    } else {
      i := TriedMember(modulus, counter, n - 1, x);
    }
  }

  lemma {:induction false} TriedSize(modulus: nat, counter: nat, n: nat)
    requires 2 <= modulus && counter < modulus && n < modulus
    ensures |Tried(modulus, counter, n)| == n
    decreases n
  {
    if n > 0 {
      TriedSize(modulus, counter, n - 1);
      if IdAt(modulus, counter, n - 1) in Tried(modulus, counter, n - 1) {
        var i := TriedMember(modulus, counter, n - 1, IdAt(modulus, counter, n - 1));
        NoEarlyRepeat(modulus, counter, i, n - 1);
        assert false;
      }
    }
  }

  lemma SubsetSize(a: set<nat>, b: set<nat>)
    requires a <= b
    ensures |a| <= |b|
  {
    assert b == a + (b - a);
  }

  /** Fewer than modulus - 1 live ids leave a free one on the ring. */
  lemma FewLiveCanAllocate(modulus: nat, counter: nat, live: set<nat>)
    requires 2 <= modulus && counter < modulus && |live| < modulus - 1
    ensures CanAllocate(modulus, counter, live)
  {
    if !CanAllocate(modulus, counter, live) {
      var tried := Tried(modulus, counter, modulus - 1);
      forall x | x in tried ensures x in live {
        var i := TriedMember(modulus, counter, modulus - 1, x);
      }
      TriedSize(modulus, counter, modulus - 1);
      SubsetSize(tried, live);
      assert false;
    }
  }

  /** The loop ends exactly when it ends within its first `modulus` iterations. */
  lemma TerminatesExactly(modulus: nat, counter: nat, live: set<nat>)
    requires 2 <= modulus && counter < modulus
    ensures CanAllocate(modulus, counter, live) <==> exists n: nat :: IdAt(modulus, counter, n) !in live
  {
    if n: nat :| IdAt(modulus, counter, n) !in live {
      ReduceIteration(modulus, counter, live, n);
    }
  }

  lemma {:induction false} ReduceIteration(modulus: nat, counter: nat, live: set<nat>, n: nat)
    requires 2 <= modulus && counter < modulus && IdAt(modulus, counter, n) !in live
    ensures CanAllocate(modulus, counter, live)
    decreases n
  {
    if n >= modulus {
      RepeatsAfterLap(modulus, counter, n - (modulus - 1));
      ReduceIteration(modulus, counter, live, n - (modulus - 1));
    }
  }

  // ----- 64-bit connection ids -----

  /** The thread number in the high half, the thread's own id in the low half. */
  function Compose(thread: nat, low: nat): nat
    requires low < U32
  {
    thread % U32 * U32 + low
  }

  function High(connId: nat): nat { connId / U32 }

  function Low(connId: nat): nat { connId % U32 }

  lemma LowOfCompose(thread: nat, low: nat)
    requires low < U32
    ensures Low(Compose(thread, low)) == low
  {
  }

  lemma ComposeSplits(thread: nat, low: nat)
    requires low < U32 && thread < U32
    ensures High(Compose(thread, low)) == thread && Low(Compose(thread, low)) == low
    ensures Compose(thread, low) == thread * 0x1_0000_0000 + low && low < 0x1_0000_0000
  {
  }
}
