/**
 * The table of outstanding fiber records (baselib/net/fiber_data_manager.cc, lines 121-127 and 215-290, without the
 * object pool). Its counter runs 1, 2, ..., modulus - 1, 1, 2, ...: the counter of module ConnIds, whose modulus is a
 * parameter there and here; the source's is 2^32.
 */
module FiberTable {
  import opened Wrappers
  import opened ConnIds

  const MAX_QUEUE_SIZE: nat := 4096

  /**
   * A thread's table. Records are known by their serial number, the number of allocations before theirs;
   * `outstanding` holds the records that were handed out and not deleted since.
   */
  datatype Table = Table(current: nat, datas: map<nat, nat>, allocations: nat, outstanding: set<nat>)

  const EMPTY: Table := Table(0, map[], 0, {})

  /** The ids handed out are 1, 2, ..., modulus - 1, over and over. */
  lemma {:induction false} LowIdSequence(m: nat, r: nat)
    requires 2 <= m
    ensures r < m - 1 ==> LowId(m, r) == r + 1
    ensures r >= m - 1 ==> LowId(m, r) == LowId(m, r - (m - 1))
  {
    if r >= m - 1 {
      RepeatsAfterLap(m, 0, r - (m - 1) + 1);
    } else {
      CounterAtSum(m, 0, 1, r);
      WithinOneLap(m, 1, r);
    }
  }

  /** The low half of the id of record r. */
  function LowId(m: nat, r: nat): (id: nat)
    requires 2 <= m
    ensures 0 < id < m
  {
    CounterAt(m, 0, r + 1)
  }

  function FiberId(m: nat, threadId: nat, r: nat): nat
    requires 2 <= m <= U32
  {
    Compose(threadId, LowId(m, r))
  }

  function Find(table: Table, fiberId: nat): Option<nat> {
    if Low(fiberId) in table.datas then Some(table.datas[Low(fiberId)]) else None
  }

  /** The counter after the increment that skips zero. */
  function Bump(m: nat, current: nat): nat
    requires 2 <= m
  {
    var next := if current + 1 == m then 0 else current + 1;
    if next == 0 then 1 else next
  }

  /** Nothing is handed out when the table is full; an id that is already a key is not inserted again. */
  function Alloc(m: nat, table: Table): Table
    requires 2 <= m
  {
    if |table.datas| >= MAX_QUEUE_SIZE then table
    else
      var id := Bump(m, table.current);
      Table(id, if id in table.datas then table.datas else table.datas[id := table.allocations],
            table.allocations + 1, table.outstanding + {table.allocations})
  }

  /** Deletes whatever record the low half of an id leads to; the thread half is not looked at. */
  function DeleteLow(table: Table, low: nat): Table {
    if low in table.datas
    then table.(datas := table.datas - {low}, outstanding := table.outstanding - {table.datas[low]})
    else table
  }

  function Delete(m: nat, table: Table, r: nat): Table
    requires 2 <= m
  {
    DeleteLow(table, LowId(m, r))
  }

  // ----- agreement of the table with the outstanding records -----

  ghost predicate Agree(m: nat, table: Table)
    requires 2 <= m
  {
    && table.current == CounterAt(m, 0, table.allocations) && |table.datas| <= MAX_QUEUE_SIZE
    && (forall r :: r in table.outstanding ==>
          r < table.allocations && LowId(m, r) in table.datas && table.datas[LowId(m, r)] == r)
    && (forall id :: id in table.datas ==> table.datas[id] in table.outstanding && LowId(m, table.datas[id]) == id)
  }

  /** Record r is younger than `age` allocations. */
  ghost predicate Younger(table: Table, r: nat, age: int) { table.allocations - r < age }

  ghost predicate AllYounger(table: Table, age: int) {
    forall r :: r in table.outstanding ==> Younger(table, r, age)
  }

  lemma BumpIsNext(m: nat, table: Table)
    requires 2 <= m && table.current == CounterAt(m, 0, table.allocations)
    ensures Bump(m, table.current) == LowId(m, table.allocations)
  {
    assert CounterAt(m, 0, table.allocations + 1) == TryNext(m, table.current).counter;
  }

  /** Ids of two records differ while less than a lap of modulus - 1 allocations is between them, and agree after it. */
  lemma LowIdsDiffer(m: nat, r: nat, q: nat)
    requires 2 <= m && r < q <= r + m - 1
    ensures LowId(m, r) != LowId(m, q) <==> q - r < m - 1
  {
    CounterAtSum(m, 0, r + 1, q - r);
    WithinOneLap(m, LowId(m, r), q - r);
  }

  /**
   * While no record has outlived a lap, an allocation keeps the table in agreement exactly when no outstanding
   * record is exactly a lap old; otherwise the new record is handed out but not entered.
   */
  lemma AllocAgreesExactly(m: nat, table: Table)
    requires 2 <= m && Agree(m, table) && |table.datas| < MAX_QUEUE_SIZE
    requires AllYounger(table, m)
    ensures Agree(m, Alloc(m, table)) <==> AllYounger(table, m - 1)
  {
    if r :| r in table.outstanding && !Younger(table, r, m - 1) {
      AllocShadowed(m, table, r);
    } else {
      AllocEnters(m, table);
    }
  }

  lemma AllocShadowed(m: nat, table: Table, r: nat)
    requires 2 <= m && Agree(m, table) && |table.datas| < MAX_QUEUE_SIZE
    requires r in table.outstanding && Younger(table, r, m) && !Younger(table, r, m - 1)
    ensures !Agree(m, Alloc(m, table))
  {
    var after := Alloc(m, table);
    BumpIsNext(m, table);
    LowIdsDiffer(m, r, table.allocations);
    assert after.datas[LowId(m, table.allocations)] == r && table.allocations in after.outstanding;
  }

  lemma AllocEnters(m: nat, table: Table)
    requires 2 <= m && Agree(m, table) && |table.datas| < MAX_QUEUE_SIZE && AllYounger(table, m - 1)
    ensures Agree(m, Alloc(m, table))
  {
    var id, after := LowId(m, table.allocations), Alloc(m, table);
    BumpIsNext(m, table);
    forall r | r in table.outstanding ensures LowId(m, r) != id {
      assert Younger(table, r, m - 1);
      LowIdsDiffer(m, r, table.allocations);
    }
    assert id !in table.datas;
    assert |after.datas| <= |table.datas| + 1 by { assert after.datas.Keys == table.datas.Keys + {id}; }
  }

  lemma DeleteAgrees(m: nat, table: Table, r: nat)
    requires 2 <= m && Agree(m, table) && r in table.outstanding
    ensures Agree(m, Delete(m, table, r)) && Delete(m, table, r).outstanding == table.outstanding - {r}
  {
    var after := Delete(m, table, r);
    assert after.datas.Keys == table.datas.Keys - {LowId(m, r)};
    assert |after.datas| <= |table.datas|;
  }

  /** A record that was deleted is not found again until its id comes round. */
  lemma StaleIdFindsNothing(m: nat, threadId: nat, table: Table, r: nat)
    requires 2 <= m <= U32 && threadId < U32 && Agree(m, table)
    requires r < table.allocations && r !in table.outstanding && Younger(table, r, m)
    requires AllYounger(table, m)
    ensures Find(table, FiberId(m, threadId, r)) == None
  {
    ComposeSplits(threadId, LowId(m, r));
    if LowId(m, r) in table.datas {
      var q := table.datas[LowId(m, r)];
      assert q in table.outstanding && Younger(table, q, m);
      if q < r { LowIdsDiffer(m, q, r); } else { LowIdsDiffer(m, r, q); }
      assert false;
    }
  }

  // ----- whole runs -----

  datatype Event = Allocate | Release(record: nat)

  /** No record is outstanding for a lap of later allocations, and only outstanding records are deleted. */
  ghost predicate Legal(m: nat, table: Table, e: Event) {
    match e
    case Allocate => AllYounger(table, m - 1)
    case Release(r) => r in table.outstanding
  }

  function Step(m: nat, table: Table, e: Event): Table
    requires 2 <= m
  {
    match e
    case Allocate => Alloc(m, table)
    case Release(r) => Delete(m, table, r)
  }

  ghost predicate Runs(m: nat, table: Table, es: seq<Event>, table': Table)
    requires 2 <= m
    decreases |es|
  {
    if es == [] then table' == table else Legal(m, table, es[0]) && Runs(m, Step(m, table, es[0]), es[1..], table')
  }

  lemma {:induction false} RunAgrees(m: nat, table: Table, es: seq<Event>, table': Table)
    requires 2 <= m && Agree(m, table) && Runs(m, table, es, table')
    ensures Agree(m, table')
    decreases |es|
  {
    if es != [] {
      match es[0] {
        case Allocate =>
          if |table.datas| < MAX_QUEUE_SIZE {
            assert forall r :: Younger(table, r, m - 1) ==> Younger(table, r, m);
            AllocAgreesExactly(m, table);
          }
        case Release(r) => DeleteAgrees(m, table, r);
      }
      RunAgrees(m, Step(m, table, es[0]), es[1..], table');
    }
  }

  lemma {:induction false} InjectiveSize(s: map<nat, nat>)
    requires forall a, b :: a in s && b in s && s[a] == s[b] ==> a == b
    ensures |s.Values| == |s|
    decreases |s|
  {
    if s != map[] {
      var k :| k in s;
      var rest := s - {k};
      assert rest.Keys == s.Keys - {k};
      InjectiveSize(rest);
      assert s.Values == rest.Values + {s[k]} by {
        forall v | v in s.Values ensures v in rest.Values + {s[k]} {
          var a :| a in s && s[a] == v;
          assert a != k ==> a in rest && rest[a] == v;
        }
      }
      assert s[k] !in rest.Values;
    }
  }

  /**
   * In every such run the table holds exactly the outstanding records, at most 4096 of them, and finds each by its
   * id, whose low half is not zero and whose high half is the thread.
   */
  lemma TableHoldsOutstanding(m: nat, threadId: nat, es: seq<Event>, table: Table)
    requires 2 <= m <= U32 && threadId < U32 && Runs(m, EMPTY, es, table)
    ensures table.datas.Values == table.outstanding && |table.outstanding| == |table.datas| <= 4096
    ensures forall r :: r in table.outstanding ==>
      && Find(table, FiberId(m, threadId, r)) == Some(r)
      && High(FiberId(m, threadId, r)) == threadId && Low(FiberId(m, threadId, r)) != 0
  {
    RunAgrees(m, EMPTY, es, table);
    InjectiveSize(table.datas);
    forall r | r in table.outstanding
      ensures Find(table, FiberId(m, threadId, r)) == Some(r)
      ensures High(FiberId(m, threadId, r)) == threadId && Low(FiberId(m, threadId, r)) != 0
    {
      ComposeSplits(threadId, LowId(m, r));
    }
    assert table.datas.Values == table.outstanding by {
      forall r | r in table.outstanding ensures r in table.datas.Values {
        assert table.datas[LowId(m, r)] == r;
      }
    }
  }

  // ----- a record that is outstanding for a lap -----

  /** Record 0 is kept while the others come and go. */
  function Held(m: nat, allocations: nat): Table
    requires 2 <= m
  {
    Table(CounterAt(m, 0, allocations), map[LowId(m, 0) := 0], allocations, {0})
  }

  lemma RunsAfter(m: nat, table: Table, e: Event, es: seq<Event>, table': Table)
    requires 2 <= m && Legal(m, table, e) && Runs(m, Step(m, table, e), es, table')
    ensures Runs(m, table, [e] + es, table')
  {
    assert ([e] + es)[1..] == es;
  }

  lemma HeldCycle(m: nat, a: nat)
    requires 2 <= m && 1 <= a < m - 1
    ensures Legal(m, Held(m, a), Allocate) && Legal(m, Alloc(m, Held(m, a)), Release(a))
    ensures Delete(m, Alloc(m, Held(m, a)), a) == Held(m, a + 1)
  {
    BumpIsNext(m, Held(m, a));
    LowIdsDiffer(m, 0, a);
    var after := Alloc(m, Held(m, a));
    assert after.datas == Held(m, a).datas[LowId(m, a) := a] && after.outstanding == {0, a};
    assert after.datas - {LowId(m, a)} == Held(m, a).datas;
    assert {0, a} - {a} == {0};
  }

  lemma FirstHeld(m: nat)
    requires 2 <= m
    ensures Step(m, EMPTY, Allocate) == Held(m, 1)
  {
    BumpIsNext(m, EMPTY);
    assert EMPTY.datas[LowId(m, 0) := 0] == map[LowId(m, 0) := 0];
    assert EMPTY.outstanding + {0} == {0};
  }

  /** A run from one such table to another, under a name of its own to keep it folded. */
  ghost predicate Leads(m: nat, a: nat, es: seq<Event>, b: nat)
    requires 2 <= m
  {
    Runs(m, Held(m, a), es, Held(m, b))
  }

  lemma HeldLonger(m: nat, a: nat, es: seq<Event>, b: nat) returns (all: seq<Event>)
    requires 2 <= m && 1 <= a < m - 1 && Leads(m, a + 1, es, b)
    ensures Leads(m, a, all, b)
  {
    var table := Held(m, b);
    var before := Held(m, a);
    var between := Alloc(m, before);
    HeldCycle(m, a);
    RunsAfter(m, between, Release(a), es, table);
    RunsAfter(m, before, Allocate, [Release(a)] + es, table);
    all := [Allocate] + ([Release(a)] + es);
  }

  lemma {:induction false} HeldReached(m: nat, a: nat, b: nat) returns (es: seq<Event>)
    requires 2 <= m && 1 <= a <= b <= m - 1
    ensures Leads(m, a, es, b)
    decreases b - a
  {
    if a == b { return []; }
    var rest := HeldReached(m, a + 1, b);
    es := HeldLonger(m, a, rest, b);
  }

  /**
   * A record held for a lap is within reach of every table: the next allocation hands out an id that finds the old
   * record, and the new one is not in the table.
   */
  lemma LapOldRecordShadows(m: nat, threadId: nat)
    requires 2 <= m <= U32
    ensures exists es, table ::
      && Runs(m, EMPTY, es, table) && Agree(m, table) && |table.datas| < MAX_QUEUE_SIZE
      && table.allocations == m - 1 && !Agree(m, Alloc(m, table))
      && m - 1 in Alloc(m, table).outstanding && Find(Alloc(m, table), FiberId(m, threadId, m - 1)) == Some(0)
  {
    var table := Held(m, m - 1);
    var es := HeldReached(m, 1, m - 1);
    FirstHeld(m);
    RunsAfter(m, EMPTY, Allocate, es, table);
    es := [Allocate] + es;
    RunAgrees(m, EMPTY, es, table);
    AllocAgreesExactly(m, table);
    assert 0 in table.outstanding && !Younger(table, 0, m - 1);
    BumpIsNext(m, table);
    LowIdsDiffer(m, 0, m - 1);
    LowOfCompose(threadId, LowId(m, m - 1));
    assert Find(Alloc(m, table), FiberId(m, threadId, m - 1)) == Some(0);
  }

  // ----- looking up and deleting by id -----

  lemma FindExact(m: nat, table: Table, fiberId: nat)
    requires 2 <= m && Agree(m, table)
    ensures forall r :: Find(table, fiberId) == Some(r) <==> r in table.outstanding && LowId(m, r) == Low(fiberId)
  {
  }

  /** The records an id does not lead to. */
  ghost function Spared(m: nat, records: set<nat>, fiberId: nat): set<nat>
    requires 2 <= m
  {
    set r | r in records && LowId(m, r) != Low(fiberId)
  }

  lemma DeleteLowExact(m: nat, table: Table, fiberId: nat)
    requires 2 <= m && Agree(m, table)
    ensures Agree(m, DeleteLow(table, Low(fiberId)))
    ensures DeleteLow(table, Low(fiberId)).outstanding == Spared(m, table.outstanding, fiberId)
  {
    if Low(fiberId) in table.datas { DeleteAgrees(m, table, table.datas[Low(fiberId)]); }
  }

  // ----- the manager object -----

  class FiberDataManager {
    const threadId: nat
    var currentFiberId: nat
    var datas: map<nat, nat>
    ghost var allocations: nat
    ghost var outstanding: set<nat>

    ghost function View(): Table
      reads this
    {
      Table(currentFiberId, datas, allocations, outstanding)
    }

    ghost predicate Valid()
      reads this
    {
      currentFiberId == CounterAt(U32, 0, allocations)
    }

    constructor (threadId: nat)
      ensures Valid() && View() == EMPTY && this.threadId == threadId
    {
      this.threadId, currentFiberId, datas, allocations, outstanding := threadId, 0, map[], 0, {};
    }

    /** `record` is the serial number the new record goes by; the result is its id, if one was handed out. */
    method AllocFiberData(record: nat) returns (fiberId: Option<nat>)
      requires Valid() && record == allocations
      modifies this
      ensures Valid() && View() == Alloc(U32, old(View()))
      ensures fiberId == if |old(datas)| < MAX_QUEUE_SIZE then Some(FiberId(U32, threadId, record)) else None
      ensures fiberId.None? <==> |old(datas)| >= 4096
      ensures fiberId.None? ==> View() == old(View())
      ensures fiberId.Some? ==> outstanding == old(outstanding) + {record} && allocations == record + 1
      ensures old(Agree(U32, View()) && AllYounger(View(), U32)) && fiberId.Some? ==>
        (Agree(U32, View()) <==> AllYounger(old(View()), U32 - 1))
    {
      ghost var before := View();
      fiberId := HandOut(record);
      if Agree(U32, before) && |before.datas| < MAX_QUEUE_SIZE && AllYounger(before, U32) {
        AllocAgreesExactly(U32, before);
      }
    }

    method HandOut(record: nat) returns (fiberId: Option<nat>)
      requires Valid() && record == allocations
      modifies this
      ensures Valid() && View() == Alloc(U32, old(View()))
      ensures fiberId == if |old(datas)| < MAX_QUEUE_SIZE then Some(FiberId(U32, threadId, record)) else None
    {
      if |datas| < MAX_QUEUE_SIZE {
        BumpIsNext(U32, View());
        AdvanceId();
        fiberId := Some(Compose(threadId, currentFiberId));
        if currentFiberId !in datas {
          datas := datas[currentFiberId := record];
        }
        outstanding := outstanding + {allocations};
        allocations := allocations + 1;
      } else {
        fiberId := None;
      }
    }

    method AdvanceId()
      requires currentFiberId < U32
      modifies this`currentFiberId
      ensures currentFiberId == Bump(U32, old(currentFiberId))
    {
      currentFiberId := (currentFiberId + 1) % U32;
      if currentFiberId == 0 {
        currentFiberId := (currentFiberId + 1) % U32;
      }
    }

    /** Finds the outstanding record of that id, if there is one. */
    method FindFiberData(fiberId: nat) returns (record: Option<nat>)
      ensures record == Find(View(), fiberId)
      ensures Agree(U32, View()) ==>
        forall r :: record == Some(r) <==> r in outstanding && LowId(U32, r) == Low(fiberId)
    {
      if Agree(U32, View()) { FindExact(U32, View(), fiberId); }
      record := if Low(fiberId) in datas then Some(datas[Low(fiberId)]) else None;
    }

    method DeleteFiberData(fiberId: nat) returns (found: bool)
      requires Valid()
      modifies this`datas, this`outstanding
      ensures Valid() && found == Find(old(View()), fiberId).Some?
      ensures View() == DeleteLow(old(View()), Low(fiberId))
      ensures old(Agree(U32, View())) ==>
        && Agree(U32, View()) && outstanding == Spared(U32, old(outstanding), fiberId)
        && found == (exists r :: r in old(outstanding) && LowId(U32, r) == Low(fiberId))
    {
      if Agree(U32, View()) {
        FindExact(U32, View(), fiberId);
        DeleteLowExact(U32, View(), fiberId);
      }
      if Low(fiberId) in datas {
        outstanding := outstanding - {datas[Low(fiberId)]};
        datas := datas - {Low(fiberId)};
        found := true;
      } else {
        found := false;
      }
    }
  }
}
