/**
 * The table of all threads, filled as thread groups start (baselib/net/thread_group_list_manager.cc, lines 20-27 and
 * 81-150; baselib/net/thread_group_list_manager.h, lines 206-222).
 */
module ThreadGroups {
  import opened Wrappers

  datatype ThreadType = NORMAL | CONN_ACCEPT | CONN_CLIENT | CONN | FIBER | DB | REDIS

  datatype ThreadOption = ThreadOption(threadType: ThreadType, size: nat)

  /** One thread: its group's type, its index, and whether it has an event base. */
  datatype ThreadData = ThreadData(threadType: ThreadType, threadIdx: nat, hasEventBase: bool)

  /** The thread table, the connection-manager numbers set on the threads, and each group's own list of indexes. */
  datatype Groups = Groups(threads: seq<ThreadData>, managerIds: map<nat, nat>, indexes: map<ThreadType, seq<nat>>)

  predicate HasEventBase(t: ThreadType) { t == CONN_ACCEPT || t == CONN_CLIENT || t == FIBER }

  /** The types a pool is made for; NORMAL and CONN get none. */
  predicate Supported(t: ThreadType) { HasEventBase(t) || t == DB || t == REDIS }

  // ----- what the code does -----

  /** The observer's callback for one started thread. */
  function ThreadStarted(g: Groups, t: ThreadType): Groups {
    var idx := |g.threads|;
    var mine := if t in g.indexes then g.indexes[t] else [];
    Groups(g.threads + [ThreadData(t, idx, HasEventBase(t))],
           if HasEventBase(t) then g.managerIds[idx := idx] else g.managerIds,
           g.indexes[t := mine + [idx]])
  }

  function StartThreads(g: Groups, t: ThreadType, n: nat): Groups
    decreases n
  {
    if n == 0 then g else StartThreads(ThreadStarted(g, t), t, n - 1)
  }

  /** A group made again replaces the one of its type; an unsupported type leaves no group. */
  function MakeThreadGroup(g: Groups, o: ThreadOption): Groups {
    if Supported(o.threadType)
    then StartThreads(g.(indexes := g.indexes[o.threadType := []]), o.threadType, o.size)
    else g.(indexes := g.indexes - {o.threadType})
  }

  function Initialize(g: Groups, options: seq<ThreadOption>): Groups
    decreases |options|
  {
    if options == [] then g else Initialize(MakeThreadGroup(g, options[0]), options[1..])
  }

  const EMPTY: Groups := Groups([], map[], map[])

  // ----- the table is consistent -----

  /** Every thread sits at its own index and carries it; exactly those with an event base number their manager so. */
  ghost predicate Consistent(g: Groups) {
    && (forall i :: 0 <= i < |g.threads| ==>
          g.threads[i].threadIdx == i && g.threads[i].hasEventBase == HasEventBase(g.threads[i].threadType))
    && (forall i :: i in g.managerIds <==> 0 <= i < |g.threads| && g.threads[i].hasEventBase)
    && (forall i :: i in g.managerIds ==> g.managerIds[i] == i)
    && (forall t :: t in g.indexes ==> Consecutive(g, t))
  }

  /** A group's threads are neighbours in the table. */
  ghost predicate Consecutive(g: Groups, t: ThreadType)
    requires t in g.indexes
  {
    var own := g.indexes[t];
    && (forall j :: 0 <= j < |own| ==> own[j] == own[0] + j < |g.threads| && g.threads[own[j]].threadType == t)
  }

  /** The group of type t is the one being started: its threads so far are the last in the table. */
  ghost predicate Starting(g: Groups, t: ThreadType) {
    t in g.indexes && (g.indexes[t] == [] || g.indexes[t][|g.indexes[t]| - 1] == |g.threads| - 1)
  }

  lemma StartedConsistent(g: Groups, t: ThreadType)
    requires Consistent(g) && Starting(g, t)
    ensures Consistent(ThreadStarted(g, t))
  {
    var h := ThreadStarted(g, t);
    forall u | u in h.indexes ensures Consecutive(h, u) {
      assert u in g.indexes && Consecutive(g, u);
      if u == t { LongerConsecutive(g, t); } else { StillConsecutive(g, h, u); }
    }
  }

  lemma StillConsecutive(g: Groups, h: Groups, t: ThreadType)
    requires t in g.indexes && t in h.indexes && h.indexes[t] == g.indexes[t] && g.threads <= h.threads
    requires Consecutive(g, t)
    ensures Consecutive(h, t)
  {
    var own := h.indexes[t];
    forall j | 0 <= j < |own| ensures own[j] == own[0] + j < |h.threads| && h.threads[own[j]].threadType == t {
      assert h.threads[own[j]] == g.threads[own[j]];
    }
  }

  lemma LongerConsecutive(g: Groups, t: ThreadType)
    requires Starting(g, t) && Consecutive(g, t)
    ensures Consecutive(ThreadStarted(g, t), t)
  {
    var h, own, n := ThreadStarted(g, t), g.indexes[t], |g.indexes[t]|;
    var all := own + [|g.threads|];
    assert h.indexes[t] == all;
    assert n > 0 ==> own[n - 1] == own[0] + n - 1 == |g.threads| - 1;
    forall j | 0 <= j <= n
      ensures all[j] == all[0] + j < |h.threads| && h.threads[all[j]].threadType == t
    {
      if j < n { assert own[j] == own[0] + j; }
    }
  }

  lemma StillStarting(g: Groups, t: ThreadType)
    requires Starting(g, t)
    ensures Starting(ThreadStarted(g, t), t)
  {
  }

  lemma {:induction false} StartThreadsConsistent(g: Groups, t: ThreadType, n: nat)
    requires Consistent(g) && Starting(g, t)
    ensures Consistent(StartThreads(g, t, n))
    decreases n
  {
    if n > 0 {
      StartedConsistent(g, t);
      StillStarting(g, t);
      StartThreadsConsistent(ThreadStarted(g, t), t, n - 1);
    }
  }

  lemma {:induction false} StartThreadsAppends(g: Groups, t: ThreadType, n: nat)
    ensures |StartThreads(g, t, n).threads| == |g.threads| + n && g.threads <= StartThreads(g, t, n).threads
    decreases n
  {
    if n > 0 {
      var h := ThreadStarted(g, t);
      StartThreadsAppends(h, t, n - 1);
      assert g.threads <= h.threads;
    }
  }

  /** A group that is cleared or gone leaves the others as they are. */
  lemma ClearedConsistent(g: Groups, h: Groups)
    requires Consistent(g) && h == g.(indexes := h.indexes)
    requires forall t :: t in h.indexes ==> h.indexes[t] == [] || (t in g.indexes && h.indexes[t] == g.indexes[t])
    ensures Consistent(h)
  {
    forall t | t in h.indexes ensures Consecutive(h, t) {
      if h.indexes[t] != [] { assert Consecutive(g, t); }
    }
  }

  lemma MakeGroupConsistent(g: Groups, o: ThreadOption)
    requires Consistent(g)
    ensures Consistent(MakeThreadGroup(g, o)) && g.threads <= MakeThreadGroup(g, o).threads
  {
    if Supported(o.threadType) {
      var cleared := g.(indexes := g.indexes[o.threadType := []]);
      ClearedConsistent(g, cleared);
      StartThreadsConsistent(cleared, o.threadType, o.size);
      StartThreadsAppends(cleared, o.threadType, o.size);
    } else {
      ClearedConsistent(g, MakeThreadGroup(g, o));
    }
  }

  lemma {:induction false} InitializeConsistent(g: Groups, options: seq<ThreadOption>)
    requires Consistent(g)
    ensures Consistent(Initialize(g, options)) && g.threads <= Initialize(g, options).threads
    decreases |options|
  {
    if options != [] {
      MakeGroupConsistent(g, options[0]);
      InitializeConsistent(MakeThreadGroup(g, options[0]), options[1..]);
    }
  }

  /**
   * A connection id's high half is its manager's number, and looking the thread up by that number finds the thread
   * itself, which has an event base to run the send on.
   */
  lemma ManagerIdFindsItsThread(options: seq<ThreadOption>, i: nat)
    requires i in Initialize(EMPTY, options).managerIds
    ensures var g := Initialize(EMPTY, options);
      var id := g.managerIds[i];
      id < |g.threads| && g.threads[id].threadIdx == i && g.threads[id].hasEventBase
  {
    InitializeConsistent(EMPTY, options);
  }

  // ----- which threads are started -----

  function TypesOf(threads: seq<ThreadData>): seq<ThreadType> {
    seq(|threads|, i requires 0 <= i < |threads| => threads[i].threadType)
  }

  /** The threads the options ask for, in order; there are none of the other two types. */
  function Ordered(options: seq<ThreadOption>): seq<ThreadType> {
    if options == [] then []
    else
      var o := options[0];
      (if o.threadType in {CONN_ACCEPT, CONN_CLIENT, FIBER, DB, REDIS} then seq(o.size, _ => o.threadType) else [])
      + Ordered(options[1..])
  }

  lemma {:induction false} StartThreadsTypes(g: Groups, t: ThreadType, n: nat)
    ensures TypesOf(StartThreads(g, t, n).threads) == TypesOf(g.threads) + seq(n, _ => t)
    decreases n
  {
    if n > 0 {
      var h := ThreadStarted(g, t);
      StartThreadsTypes(h, t, n - 1);
      assert TypesOf(h.threads) == TypesOf(g.threads) + [t];
      assert seq(n, _ => t) == [t] + seq(n - 1, _ => t);
    }
  }

  lemma MakeGroupTypes(g: Groups, o: ThreadOption)
    ensures TypesOf(MakeThreadGroup(g, o).threads) == TypesOf(g.threads) + Ordered([o])
  {
    assert Ordered([o][1..]) == [];
    if Supported(o.threadType) {
      StartThreadsTypes(g.(indexes := g.indexes[o.threadType := []]), o.threadType, o.size);
    }
  }

  lemma {:induction false} InitializeTypes(g: Groups, options: seq<ThreadOption>)
    ensures TypesOf(Initialize(g, options).threads) == TypesOf(g.threads) + Ordered(options)
    decreases |options|
  {
    if options != [] {
      MakeGroupTypes(g, options[0]);
      InitializeTypes(MakeThreadGroup(g, options[0]), options[1..]);
      assert Ordered(options) == Ordered([options[0]]) + Ordered(options[1..]);
    }
  }

  /** The table holds exactly the threads the options ask for, in order; three types have an event base. */
  lemma StartedAsOrdered(options: seq<ThreadOption>)
    ensures var threads := Initialize(EMPTY, options).threads;
      && TypesOf(threads) == Ordered(options) && |threads| == |Ordered(options)|
      && forall i :: 0 <= i < |threads| ==>
           (threads[i].hasEventBase <==> threads[i].threadType in {CONN_ACCEPT, CONN_CLIENT, FIBER})
  {
    InitializeTypes(EMPTY, options);
    InitializeConsistent(EMPTY, options);
    assert TypesOf(EMPTY.threads) == [];
  }

  lemma {:induction false} StartThreadsOwn(g: Groups, t: ThreadType, n: nat)
    requires t in g.indexes
    ensures t in StartThreads(g, t, n).indexes
    ensures StartThreads(g, t, n).indexes[t] == g.indexes[t] + seq(n, i => |g.threads| + i)
    decreases n
  {
    if n > 0 {
      var h := ThreadStarted(g, t);
      StartThreadsOwn(h, t, n - 1);
      assert h.indexes[t] == g.indexes[t] + [|g.threads|];
      assert seq(n, i => |g.threads| + i) == [|g.threads|] + seq(n - 1, i => |h.threads| + i);
    }
  }

  lemma {:induction false} StartThreadsOthers(g: Groups, t: ThreadType, n: nat)
    ensures StartThreads(g, t, n).indexes - {t} == g.indexes - {t}
    decreases n
  {
    if n > 0 {
      StartThreadsOthers(ThreadStarted(g, t), t, n - 1);
      assert ThreadStarted(g, t).indexes - {t} == g.indexes - {t};
    }
  }

  lemma MakeGroupOthers(g: Groups, o: ThreadOption, t: ThreadType)
    requires t != o.threadType
    ensures t in MakeThreadGroup(g, o).indexes <==> t in g.indexes
    ensures t in g.indexes ==> MakeThreadGroup(g, o).indexes[t] == g.indexes[t]
  {
    if Supported(o.threadType) {
      var cleared := g.(indexes := g.indexes[o.threadType := []]);
      StartThreadsOthers(cleared, o.threadType, o.size);
      var a, b := MakeThreadGroup(g, o).indexes - {o.threadType}, cleared.indexes - {o.threadType};
      assert a == b && (t in a <==> t in b);
    }
  }

  lemma {:induction false} InitializeOthers(g: Groups, options: seq<ThreadOption>, t: ThreadType)
    requires forall i :: 0 <= i < |options| ==> options[i].threadType != t
    ensures t in Initialize(g, options).indexes <==> t in g.indexes
    ensures t in g.indexes ==> Initialize(g, options).indexes[t] == g.indexes[t]
    decreases |options|
  {
    if options != [] {
      MakeGroupOthers(g, options[0], t);
      InitializeOthers(MakeThreadGroup(g, options[0]), options[1..], t);
    }
  }

  lemma {:induction false} InitializeConcat(g: Groups, a: seq<ThreadOption>, b: seq<ThreadOption>)
    ensures Initialize(g, a + b) == Initialize(Initialize(g, a), b)
    decreases |a|
  {
    if a == [] {
      assert a + b == b;
    } else {
      InitializeConcat(MakeThreadGroup(g, a[0]), a[1..], b);
      assert (a + b)[0] == a[0] && (a + b)[1..] == a[1..] + b;
    }
  }

  /**
   * The last option of a type decides its group: as many threads as it asks for, right after those of the options
   * before it, or no group for the two types that get none.
   */
  lemma GroupAsOrdered(a: seq<ThreadOption>, o: ThreadOption, b: seq<ThreadOption>)
    requires forall i :: 0 <= i < |b| ==> b[i].threadType != o.threadType
    ensures var g := Initialize(EMPTY, a + [o] + b);
      if o.threadType in {CONN_ACCEPT, CONN_CLIENT, FIBER, DB, REDIS}
      then o.threadType in g.indexes && g.indexes[o.threadType] == seq(o.size, i => |Ordered(a)| + i)
      else o.threadType !in g.indexes
  {
    var before := Initialize(EMPTY, a);
    var made := MakeThreadGroup(before, o);
    InitializeConcat(EMPTY, a + [o], b);
    InitializeConcat(EMPTY, a, [o]);
    assert [o][1..] == [];
    assert Initialize(before, [o]) == made;
    InitializeOthers(made, b, o.threadType);
    StartedAsOrdered(a);
    if Supported(o.threadType) {
      StartThreadsOwn(before.(indexes := before.indexes[o.threadType := []]), o.threadType, o.size);
      assert [] + seq(o.size, i => |before.threads| + i) == seq(o.size, i => |Ordered(a)| + i);
    }
  }

  // ----- picking a thread by type -----

  /** GetEventBaseByThreadType draws below the group's size but looks the draw up in the whole table. */
  function PickByType(g: Groups, t: ThreadType, draw: nat): Option<ThreadData>
    requires t in g.indexes ==> draw < |g.indexes[t]| <= |g.threads|
  {
    if t in g.indexes then Some(g.threads[draw]) else None
  }

  /**
   * A draw picks a thread of the group exactly when it is not below the group's first index; it picks the thread it
   * stands for exactly when the group starts the table.
   */
  lemma PickByTypeExact(options: seq<ThreadOption>, t: ThreadType, draw: nat)
    requires t in Initialize(EMPTY, options).indexes && draw < |Initialize(EMPTY, options).indexes[t]|
    ensures var g := Initialize(EMPTY, options);
      && |g.indexes[t]| <= |g.threads|
      && (PickByType(g, t, draw).value.threadIdx in g.indexes[t] <==> g.indexes[t][0] <= draw)
      && (PickByType(g, t, draw).value.threadIdx == g.indexes[t][draw] <==> g.indexes[t][0] == 0)
  {
    var g := Initialize(EMPTY, options);
    InitializeConsistent(EMPTY, options);
    assert Consecutive(g, t);
    var own := g.indexes[t];
    assert own[|own| - 1] == own[0] + |own| - 1 < |g.threads|;
    assert own[draw] == own[0] + draw;
    if own[0] <= draw { assert own[draw - own[0]] == draw; }
  }

  ghost predicate DrawStays(g: Groups, t: ThreadType, draw: nat)
    requires t in g.indexes && draw < |g.indexes[t]| <= |g.threads|
  {
    PickByType(g, t, draw).value.threadIdx in g.indexes[t]
  }

  /** No draw leaves the group exactly when the group was the first to start threads. */
  lemma PickByTypeSafe(options: seq<ThreadOption>, t: ThreadType)
    requires t in Initialize(EMPTY, options).indexes && Initialize(EMPTY, options).indexes[t] != []
    ensures var g := Initialize(EMPTY, options);
      && |g.indexes[t]| <= |g.threads|
      && ((forall draw: nat :: draw < |g.indexes[t]| ==> DrawStays(g, t, draw)) <==> g.indexes[t][0] == 0)
  {
    var g := Initialize(EMPTY, options);
    PickByTypeExact(options, t, 0);
    if g.indexes[t][0] == 0 {
      forall draw: nat | draw < |g.indexes[t]| ensures DrawStays(g, t, draw) {
        PickByTypeExact(options, t, draw);
      }
    } else {
      assert !DrawStays(g, t, 0);
    }
  }

  /** A fiber thread asked for after an accept thread has started: the draw picks the accept thread. */
  lemma PickByTypeMisses()
    ensures var g := Initialize(EMPTY, [ThreadOption(CONN_ACCEPT, 1), ThreadOption(FIBER, 1)]);
      FIBER in g.indexes && g.indexes[FIBER] == [1] && PickByType(g, FIBER, 0).value.threadType == CONN_ACCEPT
  {
    var options := [ThreadOption(CONN_ACCEPT, 1), ThreadOption(FIBER, 1)];
    var g1 := MakeThreadGroup(EMPTY, options[0]);
    var g2 := MakeThreadGroup(g1, options[1]);
    assert g1.threads == [ThreadData(CONN_ACCEPT, 0, true)];
    assert g2.threads == g1.threads + [ThreadData(FIBER, 1, true)];
    assert options[1..][1..] == [];
  }

  // ----- the object -----

  class ThreadGroupListManager {
    var threads: seq<ThreadData>
    var managerIds: map<nat, nat>
    var indexes: map<ThreadType, seq<nat>>

    function View(): Groups
      reads this
    {
      Groups(threads, managerIds, indexes)
    }

    constructor ()
      ensures View() == EMPTY
    {
      threads, managerIds, indexes := [], map[], map[];
    }

    /** The callback numbers the new thread, the observer notes the number for the group. */
    method OnThreadStarted(t: ThreadType)
      modifies this
      ensures View() == ThreadStarted(old(View()), t)
      ensures old(Consistent(View()) && Starting(View(), t)) ==> Consistent(View()) && Starting(View(), t)
    {
      if Consistent(View()) && Starting(View(), t) {
        StartedConsistent(View(), t);
        StillStarting(View(), t);
      }
      var idx := |threads|;
      if HasEventBase(t) {
        managerIds := managerIds[idx := idx];
      }
      threads := threads + [ThreadData(t, idx, HasEventBase(t))];
      indexes := indexes[t := (if t in indexes then indexes[t] else []) + [idx]];
    }

    method MakeGroup(o: ThreadOption)
      modifies this
      ensures View() == MakeThreadGroup(old(View()), o)
    {
      if Supported(o.threadType) {
        indexes := indexes[o.threadType := []];
        ghost var goal := MakeThreadGroup(old(View()), o);
        var left := o.size;
        while left > 0
          invariant StartThreads(View(), o.threadType, left) == goal
        {
          OnThreadStarted(o.threadType);
          left := left - 1;
        }
      } else {
        indexes := indexes - {o.threadType};
      }
    }

    /** No options is an error and changes nothing. */
    method InitializeAll(options: seq<ThreadOption>) returns (ok: bool)
      modifies this
      ensures ok == (options != []) && View() == Initialize(old(View()), options)
      ensures old(Consistent(View())) ==> Consistent(View())
    {
      ghost var before := View();
      if Consistent(before) { InitializeConsistent(before, options); }
      if options == [] { return false; }
      var i := 0;
      assert options[0..] == options;
      while i < |options|
        invariant i <= |options| && Initialize(View(), options[i..]) == Initialize(before, options)
      {
        assert options[i..][1..] == options[i + 1..];
        MakeGroup(options[i]);
        i := i + 1;
      }
      ok := true;
    }
  }
}
