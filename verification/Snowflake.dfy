/** Snowflake identifiers (baselib/base/snowflake_id_util.cc, lines 169-245). */
module Snowflake {
  import opened BitOps

  const BLOCK: nat := 0x200_0000     // the 25 timestamp bits that are kept
  const SEQUENCES: nat := 0x1000     // the 12 sequence bits

  /** An identifier worker. `last` is not initialised by the source, so it may start anywhere. */
  datatype Worker = Worker(workerId: nat, dataCenterId: nat, last: nat, sequence: nat)

  /** The clock readings of one call: the first one, and the one the wait loop ends on. */
  datatype Readings = Readings(first: nat, retry: nat)

  // ----- packing -----

  /** The identifier as the source computes it. */
  function PackBits(timestamp: nat, dataCenterId: nat, workerId: nat, sequence: nat): nat {
    BitOr(BitOr(BitOr(ShiftLeft(BitAnd(timestamp, 0x1FF_FFFF), 22), ShiftLeft(BitAnd(dataCenterId, 0x1F), 17)),
                ShiftLeft(BitAnd(workerId, 0x1F), 12)),
          BitAnd(sequence, 0xFFF))
  }

  function Pack(timestamp: nat, dataCenterId: nat, workerId: nat, sequence: nat): nat {
    (timestamp % BLOCK) * 0x40_0000 + (dataCenterId % 32) * 0x2_0000 + (workerId % 32) * 0x1000 + sequence % SEQUENCES
  }

  lemma Remainders(x: nat, q: nat, b: nat)
    ensures b < BLOCK && x == q * BLOCK + b ==> x % BLOCK == b
    ensures b < 32 && x == q * 32 + b ==> x % 32 == b
    ensures b < SEQUENCES && x == q * SEQUENCES + b ==> x % SEQUENCES == b
  {
  }

  lemma TimestampMask(x: nat)
    ensures BitAnd(x, 0x1FF_FFFF) == x % BLOCK
  {
    Powers();
    var q := MaskParts(x, 25, BLOCK);
    Remainders(x, q, BitAnd(x, 0x1FF_FFFF));
  }

  lemma NumberMask(x: nat)
    ensures BitAnd(x, 0x1F) == x % 32
  {
    Powers();
    var q := MaskParts(x, 5, 32);
    Remainders(x, q, BitAnd(x, 0x1F));
  }

  lemma SequenceMask(x: nat)
    ensures BitAnd(x, 0xFFF) == x % SEQUENCES
  {
    Powers();
    var q := MaskParts(x, 12, SEQUENCES);
    Remainders(x, q, BitAnd(x, 0xFFF));
  }

  /** The masked, shifted fields do not overlap, so or-ing them together is adding them. */
  lemma PackIsOr(timestamp: nat, dataCenterId: nat, workerId: nat, sequence: nat)
    ensures PackBits(timestamp, dataCenterId, workerId, sequence) == Pack(timestamp, dataCenterId, workerId, sequence)
  {
    TimestampMask(timestamp);
    NumberMask(dataCenterId);
    NumberMask(workerId);
    SequenceMask(sequence);
    OrFields(timestamp % BLOCK, dataCenterId % 32, workerId % 32, sequence % SEQUENCES);
  }

  lemma OrFields(t: nat, d: nat, w: nat, s: nat)
    requires d < 32 && w < 32 && s < SEQUENCES
    ensures BitOr(BitOr(BitOr(ShiftLeft(t, 22), ShiftLeft(d, 17)), ShiftLeft(w, 12)), s)
         == t * 0x40_0000 + d * 0x2_0000 + w * 0x1000 + s
  {
    var td := t * 32 + d;
    var tdw := td * 32 + w;
    Powers();
    OrField(t, d, 22, 0x40_0000, 17, 0x2_0000);
    OrField(td, w, 17, 0x2_0000, 12, 0x1000);
    OrDisjoint(tdw, s, 12);
    ShiftIsTimes(tdw, 12, 0x1000);
    ShiftIsTimes(td, 17, 0x2_0000);
  }

  /** One field of five bits below what has been packed so far. */
  lemma OrField(hi: nat, field: nat, k: nat, p: nat, l: nat, q: nat)
    requires field < 32 && p == PowerOf2(k) == 32 * q && q == PowerOf2(l)
    ensures BitOr(ShiftLeft(hi, k), ShiftLeft(field, l)) == ShiftLeft(hi * 32 + field, l)
    ensures ShiftLeft(hi * 32 + field, l) == hi * p + field * q
  {
    ShiftIsTimes(hi, k, p);
    ShiftIsTimes(field, l, q);
    ShiftIsTimes(hi * 32 + field, l, q);
    FieldFits(hi, field, p, q);
    OrDisjoint(hi, ShiftLeft(field, l), k);
  }

  lemma FieldFits(hi: nat, field: nat, p: nat, q: nat)
    requires field < 32 && p == 32 * q && q > 0
    ensures field * q < p && (hi * 32 + field) * q == hi * p + field * q
  {
  }

  lemma Unpack(timestamp: nat, dataCenterId: nat, workerId: nat, sequence: nat)
    ensures var id := Pack(timestamp, dataCenterId, workerId, sequence);
      && id / 0x40_0000 == timestamp % BLOCK
      && id / 0x2_0000 % 32 == dataCenterId % 32
      && id / 0x1000 % 32 == workerId % 32
      && id % SEQUENCES == sequence % SEQUENCES
      && id < 0x8000_0000_0000
  {
    var t, d, w, s := timestamp % BLOCK, dataCenterId % 32, workerId % 32, sequence % SEQUENCES;
    var id := Pack(timestamp, dataCenterId, workerId, sequence);
    assert id / 0x1000 == t * 0x400 + d * 32 + w;
    assert id / 0x2_0000 == t * 32 + d;
  }

  /** Only 25 timestamp bits survive: one block of milliseconds later the same identifier comes back. */
  lemma RepeatsEachBlock(timestamp: nat, dataCenterId: nat, workerId: nat, sequence: nat)
    ensures Pack(timestamp + BLOCK, dataCenterId, workerId, sequence)
         == Pack(timestamp, dataCenterId, workerId, sequence)
  {
    assert (timestamp + BLOCK) % BLOCK == timestamp % BLOCK;
  }

  // ----- one call -----

  /** The call finds the millisecond's sequence numbers used up and takes another reading. */
  predicate Wraps(w: Worker, r: Readings) {
    w.last == r.first && (w.sequence + 1) % SEQUENCES == 0
  }

  function Next(w: Worker, r: Readings): Worker {
    if w.last == r.first then
      var sequence := (w.sequence + 1) % SEQUENCES;
      w.(sequence := sequence, last := if sequence == 0 then r.retry else r.first)
    else w.(sequence := 0, last := r.first)
  }

  function IdOf(w: Worker): nat { Pack(w.last, w.dataCenterId, w.workerId, w.sequence) }

  // ----- whole runs -----

  function After(w: Worker, calls: seq<Readings>): Worker
    decreases |calls|
  {
    if calls == [] then w else After(Next(w, calls[0]), calls[1..])
  }

  /** The identifiers of a run, the one w has just issued included. */
  function Ids(w: Worker, calls: seq<Readings>): seq<nat>
    decreases |calls|
  {
    [IdOf(w)] + if calls == [] then [] else Ids(Next(w, calls[0]), calls[1..])
  }

  /** Every identifier of a run carries its worker's two numbers. */
  lemma {:induction false} IdsCarryNumbers(w: Worker, calls: seq<Readings>)
    ensures forall id :: id in Ids(w, calls) ==>
      id / 0x2_0000 % 32 == w.dataCenterId % 32 && id / 0x1000 % 32 == w.workerId % 32
    decreases |calls|
  {
    Unpack(w.last, w.dataCenterId, w.workerId, w.sequence);
    if calls != [] { IdsCarryNumbers(Next(w, calls[0]), calls[1..]); }
  }

  /** Two workers with these data centres and the same worker number can issue the same identifier. */
  ghost predicate CanMeet(n1: nat, n2: nat, workerId: nat) {
    exists w1, w2, calls1, calls2, id ::
      && id in Ids(w1, calls1) && id in Ids(w2, calls2)
      && w1 == Worker(workerId, n1, w1.last, w1.sequence) && w2 == Worker(workerId, n2, w2.last, w2.sequence)
  }

  /**
   * The n-th thread to ask for a worker is given n as its data centre. Two threads' workers can issue the same
   * identifier exactly when their numbers agree modulo 32, so the first 32 threads are safe from each other.
   */
  lemma ThreadStreamsDisjoint(n1: nat, n2: nat, workerId: nat)
    ensures CanMeet(n1, n2, workerId) <==> n1 % 32 == n2 % 32
  {
    if n1 % 32 == n2 % 32 {
      var w1, w2, r := Worker(workerId, n1, 0, 0), Worker(workerId, n2, 0, 0), Readings(1, 1);
      assert Ids(w1, [r]) == [IdOf(w1)] + Ids(Next(w1, r), []);
      assert Ids(w2, [r]) == [IdOf(w2)] + Ids(Next(w2, r), []);
      var id := IdOf(Next(w1, r));
      assert id in Ids(Next(w1, r), []) && id in Ids(Next(w2, r), []);
      assert id in Ids(w1, [r]) && id in Ids(w2, [r]);
    }
    if w1, w2, calls1, calls2, id :|
      && id in Ids(w1, calls1) && id in Ids(w2, calls2)
      && w1 == Worker(workerId, n1, w1.last, w1.sequence) && w2 == Worker(workerId, n2, w2.last, w2.sequence)
    {
      IdsCarryNumbers(w1, calls1);
      IdsCarryNumbers(w2, calls2);
    }
  }

  /**
   * The worker of GetNextIDBySnowflakeUnSafe has the configured data centre rather than a thread's number. Of the
   * first 32 threads' workers it can meet exactly the one whose number is the configured one modulo 32.
   */
  lemma UnsafeWorkerMeets(dataCenterId: nat, workerId: nat, n: nat)
    requires n < 32
    ensures CanMeet(n, dataCenterId, workerId) <==> n == dataCenterId % 32
    ensures n == dataCenterId % 32 ==>
      forall t: nat, s: nat :: Pack(t, n, workerId, s) == Pack(t, dataCenterId, workerId, s)
  {
    ThreadStreamsDisjoint(n, dataCenterId, workerId);
  }

  /** The clock never runs backwards and no reading used leaves the block the run starts in. */
  ghost predicate SteadyClock(w: Worker, calls: seq<Readings>)
    decreases |calls|
  {
    calls == [] ||
    (var r := calls[0];
     && w.last <= r.first && (Wraps(w, r) ==> r.first <= r.retry)
     && Next(w, r).last / BLOCK == w.last / BLOCK
     && SteadyClock(Next(w, r), calls[1..]))
  }

  /** Whenever the sequence wraps, the reading that replaces the timestamp is strictly later. */
  ghost predicate LaterOnWrap(w: Worker, calls: seq<Readings>)
    decreases |calls|
  {
    calls == [] ||
    (&& (Wraps(w, calls[0]) ==> calls[0].retry > w.last)
     && LaterOnWrap(Next(w, calls[0]), calls[1..]))
  }

  ghost predicate StrictlyIncreasing(ids: seq<nat>) {
    forall i, j :: 0 <= i < j < |ids| ==> ids[i] < ids[j]
  }

  lemma OrderOfIds(a: Worker, b: Worker)
    requires a.workerId == b.workerId && a.dataCenterId == b.dataCenterId
    requires a.last / BLOCK == b.last / BLOCK && a.sequence < SEQUENCES && b.sequence < SEQUENCES
    ensures IdOf(a) < IdOf(b) <==> a.last < b.last || (a.last == b.last && a.sequence < b.sequence)
  {
  }

  lemma StepGrows(w: Worker, r: Readings)
    requires w.sequence < SEQUENCES && SteadyClock(w, [r])
    ensures IdOf(w) < IdOf(Next(w, r)) <==> (Wraps(w, r) ==> r.retry > w.last)
  {
    StepOrder(w, r);
    OrderOfIds(w, Next(w, r));
  }

  /** A call moves on in time, or else in sequence, unless it wraps without a later reading. */
  lemma StepOrder(w: Worker, r: Readings)
    requires w.sequence < SEQUENCES && w.last <= r.first && (Wraps(w, r) ==> r.first <= r.retry)
    ensures var n := Next(w, r);
      && n.sequence < SEQUENCES
      && (w.last < n.last || (w.last == n.last && w.sequence < n.sequence) <==> (Wraps(w, r) ==> r.retry > w.last))
  {
  }

  /** Identifiers of a run grow strictly exactly when every wrap of the sequence is followed by a later reading. */
  lemma {:induction false} RunGrowsExactly(w: Worker, calls: seq<Readings>)
    requires w.sequence < SEQUENCES && SteadyClock(w, calls)
    ensures StrictlyIncreasing(Ids(w, calls)) <==> LaterOnWrap(w, calls)
    decreases |calls|
  {
    if calls != [] {
      var w' := Next(w, calls[0]);
      RunGrowsExactly(w', calls[1..]);
      StepGrows(w, calls[0]);
      IncreasingCons(IdOf(w), Ids(w', calls[1..]));
    }
  }

  lemma IncreasingCons(x: nat, ids: seq<nat>)
    requires ids != []
    ensures StrictlyIncreasing([x] + ids) <==> x < ids[0] && StrictlyIncreasing(ids)
  {
    var all := [x] + ids;
    assert forall i :: 0 <= i < |ids| ==> ids[i] == all[i + 1];
    if StrictlyIncreasing(all) {
      assert all[0] < all[1];
    }
    if x < ids[0] && StrictlyIncreasing(ids) {
      forall i, j | 0 <= i < j < |all| ensures all[i] < all[j] {
        assert j == 1 || ids[0] < ids[j - 1];
      }
    }
  }

  /** n calls that all read the same clock value, the wait loop included. */
  ghost function Frozen(t: nat, n: nat): seq<Readings> { seq(n, _ => Readings(t, t)) }

  lemma {:induction false} FrozenRun(w: Worker, n: nat)
    requires w.sequence < SEQUENCES
    ensures After(w, Frozen(w.last, n)) == w.(sequence := (w.sequence + n) % SEQUENCES)
    decreases n
  {
    if n > 0 {
      var w' := Next(w, Readings(w.last, w.last));
      assert Frozen(w.last, n)[1..] == Frozen(w.last, n - 1);
      FrozenRun(w', n - 1);
      assert (w'.sequence + n - 1) % SEQUENCES == (w.sequence + n) % SEQUENCES;
    }
  }

  /** Every wait ends on a positive reading, as the wait that is written does. */
  ghost predicate WaitsAsWritten(w: Worker, calls: seq<Readings>)
    decreases |calls|
  {
    calls == [] ||
    (&& (Wraps(w, calls[0]) ==> calls[0].retry > 0)
     && WaitsAsWritten(Next(w, calls[0]), calls[1..]))
  }

  lemma {:induction false} FrozenWaits(w: Worker, n: nat)
    requires w.last > 0
    ensures WaitsAsWritten(w, Frozen(w.last, n))
    decreases n
  {
    if n > 0 {
      assert Frozen(w.last, n)[1..] == Frozen(w.last, n - 1);
      FrozenWaits(Next(w, Readings(w.last, w.last)), n - 1);
    }
  }

  /**
   * The wait as written accepts the old millisecond, so a clock that stands still, other than at 0, where the wait
   * would not end, brings the worker back to where it was after every 4096 calls, and only then.
   */
  lemma FrozenClockRepeats(w: Worker, n: nat)
    requires w.sequence < SEQUENCES && w.last > 0
    ensures WaitsAsWritten(w, Frozen(w.last, n))
    ensures After(w, Frozen(w.last, n)) == w <==> n % SEQUENCES == 0
  {
    FrozenWaits(w, n);
    FrozenReturns(w, n);
  }

  lemma FrozenReturns(w: Worker, n: nat)
    requires w.sequence < SEQUENCES
    ensures After(w, Frozen(w.last, n)) == w <==> n % SEQUENCES == 0
  {
    var v := w.(sequence := (w.sequence + n) % SEQUENCES);
    assert After(w, Frozen(w.last, n)) == v by { FrozenRun(w, n); }
    assert v == w <==> n % SEQUENCES == 0 by { SameAfter(w.sequence, n); }
  }

  lemma SameAfter(s: nat, n: nat)
    requires s < SEQUENCES
    ensures (s + n) % SEQUENCES == s <==> n % SEQUENCES == 0
  {
  }

  // ----- at most 4096 calls in a millisecond -----

  /** The millisecond of every call: those w has served in its current millisecond, then the run's. */
  function Times(w: Worker, calls: seq<Readings>): seq<nat> {
    seq(w.sequence + 1, _ => w.last) + seq(|calls|, i requires 0 <= i < |calls| => calls[i].first)
  }

  /** The times do not decrease and stay within a block; no millisecond serves more than 4096 calls. */
  ghost predicate Spread(times: seq<nat>) {
    && (forall i, j :: 0 <= i <= j < |times| ==> times[i] <= times[j] && times[i] / BLOCK == times[j] / BLOCK)
    && (forall i, j :: 0 <= i && j == i + SEQUENCES && j < |times| ==> times[i] < times[j])
  }

  lemma SpreadHead(w: Worker, calls: seq<Readings>)
    requires w.sequence < SEQUENCES && calls != [] && Spread(Times(w, calls))
    ensures var r := calls[0];
      w.last <= r.first && r.first / BLOCK == w.last / BLOCK && !Wraps(w, r)
  {
    var times, n := Times(w, calls), w.sequence + 1;
    assert times[0] == w.last && times[n] == calls[0].first && times[0] <= times[n];
  }

  lemma SpreadSuffix(times: seq<nat>, n: nat)
    requires n <= |times| && Spread(times)
    ensures Spread(times[n..])
  {
    var later := times[n..];
    assert forall i :: 0 <= i < |later| ==> later[i] == times[i + n];
    forall i, j | 0 <= i <= j < |later| ensures later[i] <= later[j] && later[i] / BLOCK == later[j] / BLOCK {
      assert times[i + n] <= times[j + n];
    }
    forall i, j | 0 <= i && j == i + SEQUENCES && j < |later| ensures later[i] < later[j] {
      assert times[i + n] < times[j + n];
    }
  }

  /** One more call within the millisecond lengthens the run of equal times, a later one starts a new run. */
  lemma TimesAfter(w: Worker, calls: seq<Readings>)
    requires calls != [] && !Wraps(w, calls[0]) && w.sequence < SEQUENCES
    ensures Times(Next(w, calls[0]), calls[1..])
         == if calls[0].first == w.last then Times(w, calls) else Times(w, calls)[w.sequence + 1..]
  {
  }

  lemma SpreadStep(w: Worker, calls: seq<Readings>)
    requires w.sequence < SEQUENCES && calls != [] && Spread(Times(w, calls))
    ensures var r := calls[0];
      && !Wraps(w, r) && w.last <= r.first && r.first / BLOCK == w.last / BLOCK
      && Spread(Times(Next(w, r), calls[1..]))
  {
    SpreadHead(w, calls);
    TimesAfter(w, calls);
    SpreadSuffix(Times(w, calls), w.sequence + 1);
  }

  /** A caller that asks at most 4096 times in a millisecond never meets the wait, and its identifiers grow strictly. */
  lemma {:induction false} SpreadRunGrows(w: Worker, calls: seq<Readings>)
    requires w.sequence < SEQUENCES && Spread(Times(w, calls))
    ensures SteadyClock(w, calls) && LaterOnWrap(w, calls) && StrictlyIncreasing(Ids(w, calls))
    decreases |calls|
  {
    if calls != [] {
      SpreadStep(w, calls);
      SpreadRunGrows(Next(w, calls[0]), calls[1..]);
    }
    RunGrowsExactly(w, calls);
  }

  // ----- the worker and its clock -----

  /** The k-th reading of a clock is the first from `from` on that passes bound. */
  ghost predicate FirstAfter(clock: nat -> nat, from: nat, bound: nat, k: nat) {
    from <= k && clock(k) > bound && forall j :: from <= j < k ==> clock(j) <= bound
  }

  /** A call at position `at` of the clock makes the readings r, the last at position k; its wait passes bound. */
  ghost predicate Reads(clock: nat -> nat, at: nat, w: Worker, r: Readings, bound: nat, k: nat) {
    && r.first == clock(at)
    && (if Wraps(w, r) then FirstAfter(clock, at + 1, bound, k) && r.retry == clock(k) else k == at)
  }

  /** The calls read the clock one after the other, waiting past the last timestamp as the original does. */
  ghost predicate MeantRun(clock: nat -> nat, at: nat, w: Worker, calls: seq<Readings>)
    decreases |calls|
  {
    calls == [] ||
    exists k: nat :: Reads(clock, at, w, calls[0], w.last, k) && MeantRun(clock, k + 1, Next(w, calls[0]), calls[1..])
  }

  /** The same with the wait that is written, which is handed the sequence number, 0. */
  ghost predicate WrittenRun(clock: nat -> nat, at: nat, w: Worker, calls: seq<Readings>)
    decreases |calls|
  {
    calls == [] ||
    exists k: nat :: Reads(clock, at, w, calls[0], 0, k) && WrittenRun(clock, k + 1, Next(w, calls[0]), calls[1..])
  }

  lemma {:induction false} MeantRunWaits(clock: nat -> nat, at: nat, w: Worker, calls: seq<Readings>)
    requires MeantRun(clock, at, w, calls)
    ensures LaterOnWrap(w, calls)
    decreases |calls|
  {
    if calls != [] {
      var k: nat :| Reads(clock, at, w, calls[0], w.last, k) && MeantRun(clock, k + 1, Next(w, calls[0]), calls[1..]);
      MeantRunWaits(clock, k + 1, Next(w, calls[0]), calls[1..]);
    }
  }

  /** Had the wait been handed the last timestamp, identifiers would grow whatever a steady clock does. */
  lemma MeantWaitGrows(clock: nat -> nat, at: nat, w: Worker, calls: seq<Readings>)
    requires w.sequence < SEQUENCES && SteadyClock(w, calls) && MeantRun(clock, at, w, calls)
    ensures StrictlyIncreasing(Ids(w, calls))
  {
    MeantRunWaits(clock, at, w, calls);
    RunGrowsExactly(w, calls);
  }

  ghost predicate NonDecreasing(clock: nat -> nat) { forall i, j :: i <= j ==> clock(i) <= clock(j) }

  /** Whenever the sequence wraps, the clock moves on between that reading and the next one. */
  ghost predicate TicksOnWrap(clock: nat -> nat, at: nat, w: Worker, calls: seq<Readings>)
    decreases |calls|
  {
    calls == [] ||
    (&& (Wraps(w, calls[0]) ==> clock(at) < clock(at + 1))
     && TicksOnWrap(clock, if Wraps(w, calls[0]) then at + 2 else at + 1, Next(w, calls[0]), calls[1..]))
  }

  /** The wait as written takes the reading after the one that wraps. */
  lemma WrittenStep(clock: nat -> nat, at: nat, w: Worker, r: Readings, k: nat)
    requires NonDecreasing(clock) && 0 < w.last <= r.first && Reads(clock, at, w, r, 0, k)
    ensures k == if Wraps(w, r) then at + 1 else at
    ensures Wraps(w, r) ==> (r.retry > w.last <==> clock(at) < clock(at + 1)) && r.retry > 0
  {
    assert clock(at) <= clock(at + 1);
  }

  lemma {:induction false} WrittenRunTicks(clock: nat -> nat, at: nat, w: Worker, calls: seq<Readings>)
    requires NonDecreasing(clock) && 0 < w.last && SteadyClock(w, calls) && WrittenRun(clock, at, w, calls)
    ensures LaterOnWrap(w, calls) <==> TicksOnWrap(clock, at, w, calls)
    decreases |calls|
  {
    if calls != [] {
      var r := calls[0];
      var k: nat :| Reads(clock, at, w, r, 0, k) && WrittenRun(clock, k + 1, Next(w, r), calls[1..]);
      WrittenStep(clock, at, w, r, k);
      WrittenRunTicks(clock, k + 1, Next(w, r), calls[1..]);
    }
  }

  /**
   * As written, the wait takes the very next reading, so identifiers grow exactly when the clock happens to move on
   * between the two readings of every call that wraps.
   */
  lemma WrittenRunGrowsExactly(clock: nat -> nat, at: nat, w: Worker, calls: seq<Readings>)
    requires NonDecreasing(clock) && 0 < w.last && w.sequence < SEQUENCES
    requires SteadyClock(w, calls) && WrittenRun(clock, at, w, calls)
    ensures StrictlyIncreasing(Ids(w, calls)) <==> TicksOnWrap(clock, at, w, calls)
  {
    WrittenRunTicks(clock, at, w, calls);
    RunGrowsExactly(w, calls);
  }

  method TilNextMillis(clock: nat -> nat, from: nat, bound: nat, ghost enough: nat) returns (timestamp: nat, k: nat)
    requires from <= enough && clock(enough) > bound
    ensures FirstAfter(clock, from, bound, k) && timestamp == clock(k)
  {
    k := from;
    timestamp := clock(k);
    while timestamp <= bound
      invariant from <= k <= enough && timestamp == clock(k)
      invariant forall j :: from <= j < k ==> clock(j) <= bound
      decreases enough - k
    {
      k := k + 1;
      timestamp := clock(k);
    }
  }

  method Assemble(timestamp: nat, dataCenterId: nat, workerId: nat, sequence: nat) returns (id: nat)
    ensures id == Pack(timestamp, dataCenterId, workerId, sequence)
  {
    id := PackBits(timestamp, dataCenterId, workerId, sequence);
    PackIsOr(timestamp, dataCenterId, workerId, sequence);
  }

  class IdWorker {
    const workerId: nat
    const dataCenterId: nat
    var lastTimestamp: nat
    var sequenceNumber: nat

    function View(): Worker
      reads this
    {
      Worker(workerId, dataCenterId, lastTimestamp, sequenceNumber)
    }

    constructor (workerId: nat, dataCenterId: nat, garbage: nat)
      ensures View() == Worker(workerId, dataCenterId, garbage, 0)
    {
      this.workerId, this.dataCenterId, lastTimestamp, sequenceNumber := workerId, dataCenterId, garbage, 0;
    }

    /**
     * One call, reading the clock from position `at`. The wait loop is handed the sequence number, which is 0
     * whenever it runs, so it ends on the first positive reading.
     */
    method GetNextId(clock: nat -> nat, at: nat, ghost enough: nat) returns (id: nat, ghost retryAt: nat)
      requires Wraps(View(), Readings(clock(at), 0)) ==> at < enough && clock(enough) > 0
      modifies this`lastTimestamp, this`sequenceNumber
      ensures Reads(clock, at, old(View()), Readings(clock(at), clock(retryAt)), 0, retryAt)
      ensures View() == Next(old(View()), Readings(clock(at), clock(retryAt)))
      ensures id == IdOf(View())
      ensures id / 0x40_0000 == lastTimestamp % 0x200_0000 && id / 0x2_0000 % 32 == dataCenterId % 32
      ensures id / 0x1000 % 32 == workerId % 32 && id % 0x1000 == sequenceNumber % 0x1000
      ensures sequenceNumber == if old(lastTimestamp) == clock(at) then (old(sequenceNumber) + 1) % 0x1000 else 0
      ensures lastTimestamp ==
        if old(lastTimestamp) == clock(at) && sequenceNumber == 0 then clock(retryAt) else clock(at)
      ensures var w, r := old(View()), Readings(clock(at), clock(retryAt));
        w.sequence < SEQUENCES && SteadyClock(w, [r]) ==> (id > IdOf(w) <==> (Wraps(w, r) ==> r.retry > w.last))
    {
      ghost var w := View();
      id, retryAt := NextId(clock, at, enough);
      Unpack(lastTimestamp, dataCenterId, workerId, sequenceNumber);
      ghost var r := Readings(clock(at), clock(retryAt));
      if w.sequence < SEQUENCES && SteadyClock(w, [r]) { StepGrows(w, r); }
    }

    method NextId(clock: nat -> nat, at: nat, ghost enough: nat) returns (id: nat, ghost retryAt: nat)
      requires Wraps(View(), Readings(clock(at), 0)) ==> at < enough && clock(enough) > 0
      modifies this`lastTimestamp, this`sequenceNumber
      ensures Reads(clock, at, old(View()), Readings(clock(at), clock(retryAt)), 0, retryAt)
      ensures View() == Next(old(View()), Readings(clock(at), clock(retryAt)))
      ensures id == IdOf(View())
    {
      var timestamp := clock(at);
      retryAt := at;
      if lastTimestamp == timestamp {
        sequenceNumber := (sequenceNumber + 1) % SEQUENCES;
        if sequenceNumber == 0 {
          var retry, m := TilNextMillis(clock, at + 1, sequenceNumber, enough);
          timestamp := retry;
          retryAt := m;
        }
      } else {
        sequenceNumber := 0;
      }
      lastTimestamp := timestamp;
      id := Assemble(timestamp, dataCenterId, workerId, sequenceNumber);
    }
  }
}
