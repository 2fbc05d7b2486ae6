/**
 * Dispatch by server name: a task that hops from thread to thread until one of them has a matching registration
 * (baselib/net/io_thread_pool_manager.cc, lines 161-172 and 275-328).
 */
module ServerDispatch {
  import opened Wrappers
  import opened IoThreadConns

  /** A thread as the dispatch sees it: whether it has an event base, and its registrations at this moment. */
  datatype Thread = Thread(hasEventBase: bool, conns: seq<ServerConn>)

  datatype Write = Write(thread: nat, position: nat, pipeline: Pipeline)

  /** A dispatch under way: the thread it is queued on, if any, the hops it has made and the writes it has caused. */
  datatype Task = Task(queuedOn: Option<nat>, hops: seq<nat>, writes: seq<Write>)

  datatype World = World(threads: seq<Thread>, task: Task)

  /** Either some thread's registrations change, or the queued dispatch takes its next hop. */
  datatype Event = Change(thread: nat, conns: seq<ServerConn>) | Hop

  function Enqueue(threads: seq<Thread>, task: Task, on: nat): Task {
    if on < |threads| && threads[on].hasEventBase then task.(queuedOn := Some(on)) else task.(queuedOn := None)
  }

  /** The call that starts a dispatch. */
  function Begin(threads: seq<Thread>): World { World(threads, Enqueue(threads, Task(None, [], []), 0)) }

  /** DispatchIOBufByIdx on the thread where the dispatch is queued. */
  function RunHop(w: World, name: string, number: nat): World
    requires w.task.queuedOn.Some? && w.task.queuedOn.value < |w.threads|
  {
    var t := w.task.queuedOn.value;
    var conns := w.threads[t].conns;
    var i := FirstMatch(conns, name, number);
    var task := w.task.(hops := w.task.hops + [t]);
    if i < |conns|
    then w.(task := task.(queuedOn := None, writes := task.writes + [Write(t, i, conns[i].pipeline)]))
    else w.(task := Enqueue(w.threads, task, t + 1))
  }

  predicate Legal(w: World, e: Event) {
    match e
    case Change(t, conns) => t < |w.threads|
    case Hop => w.task.queuedOn.Some? && w.task.queuedOn.value < |w.threads|
  }

  function Step(w: World, name: string, number: nat, e: Event): World
    requires Legal(w, e)
  {
    match e
    case Change(t, conns) => w.(threads := w.threads[t := w.threads[t].(conns := conns)])
    case Hop => RunHop(w, name, number)
  }

  ghost predicate Runs(w: World, name: string, number: nat, es: seq<Event>, w': World)
    decreases |es|
  {
    if es == [] then w' == w else Legal(w, es[0]) && Runs(Step(w, name, number, es[0]), name, number, es[1..], w')
  }

  // ----- safety, with registrations changing all the while -----

  /** The hops so far were on threads 0, 1, 2, ...; the dispatch is queued on the next until it writes or gives up. */
  ghost predicate Inv(w: World) {
    && (forall i :: 0 <= i < |w.task.hops| ==> w.task.hops[i] == i)
    && |w.task.hops| <= |w.threads| && |w.task.writes| <= 1
    && (w.task.queuedOn.Some? ==>
          w.task.queuedOn.value == |w.task.hops| < |w.threads| && w.task.writes == [])
    && (w.task.writes != [] ==> w.task.hops != [] && w.task.writes[0].thread == |w.task.hops| - 1)
  }

  lemma {:induction false} RunKeeps(w: World, name: string, number: nat, es: seq<Event>, w': World)
    requires Inv(w) && Runs(w, name, number, es, w')
    ensures Inv(w') && |w'.threads| == |w.threads|
    decreases |es|
  {
    if es != [] { RunKeeps(Step(w, name, number, es[0]), name, number, es[1..], w'); }
  }

  /** Whatever changes between hops, a dispatch visits threads in order, each at most once, and writes at most once. */
  lemma AtMostOneWrite(threads: seq<Thread>, name: string, number: nat, es: seq<Event>, w': World)
    requires Runs(Begin(threads), name, number, es, w')
    ensures |w'.task.writes| <= 1 && |w'.task.hops| <= |threads|
    ensures forall i :: 0 <= i < |w'.task.hops| ==> w'.task.hops[i] == i
  {
    RunKeeps(Begin(threads), name, number, es, w');
  }

  // ----- a registration that stays put is found -----

  ghost predicate HasMatch(thread: Thread, name: string, number: nat) {
    exists i :: 0 <= i < |thread.conns| && Matches(thread.conns[i], name, number)
  }

  /** Thread k keeps some usable registration of the server throughout the run. */
  ghost predicate StaysRegistered(k: nat, name: string, number: nat, es: seq<Event>) {
    forall i :: 0 <= i < |es| && es[i].Change? && es[i].thread == k ==>
      HasMatch(Thread(true, es[i].conns), name, number)
  }

  ghost predicate Reaching(w: World, k: nat, name: string, number: nat) {
    && k < |w.threads| && HasMatch(w.threads[k], name, number)
    && (forall t :: 0 <= t <= k ==> w.threads[t].hasEventBase)
    && (w.task.writes == [] ==> w.task.queuedOn.Some? && w.task.queuedOn.value <= k)
  }

  lemma {:induction false} RunReaches(w: World, k: nat, name: string, number: nat, es: seq<Event>, w': World)
    requires Reaching(w, k, name, number) && StaysRegistered(k, name, number, es) && Runs(w, name, number, es, w')
    ensures Reaching(w', k, name, number)
    decreases |es|
  {
    if es != [] {
      var v := Step(w, name, number, es[0]);
      assert Reaching(v, k, name, number) by {
        if es[0].Change? && es[0].thread == k {
          assert HasMatch(Thread(true, es[0].conns), name, number);
        }
      }
      assert StaysRegistered(k, name, number, es[1..]);
      RunReaches(v, k, name, number, es[1..], w');
    }
  }

  /** If one thread has the server registered all along, a dispatch that is over has written exactly once. */
  lemma StableRegistrationIsFound(threads: seq<Thread>, k: nat, name: string, number: nat, es: seq<Event>, w': World)
    requires k < |threads| && HasMatch(threads[k], name, number)
    requires forall t :: 0 <= t <= k ==> threads[t].hasEventBase
    requires StaysRegistered(k, name, number, es) && Runs(Begin(threads), name, number, es, w')
    requires w'.task.queuedOn.None?
    ensures |w'.task.writes| == 1 && w'.task.writes[0].thread <= k
  {
    var w := Begin(threads);
    RunReaches(w, k, name, number, es, w');
    RunKeeps(w, name, number, es, w');
    RunWritesEarly(w, k, name, number, es, w');
  }

  lemma {:induction false} RunWritesEarly(w: World, k: nat, name: string, number: nat, es: seq<Event>, w': World)
    requires Reaching(w, k, name, number) && StaysRegistered(k, name, number, es) && Runs(w, name, number, es, w')
    requires Inv(w) && (w.task.writes != [] ==> w.task.writes[0].thread <= k)
    ensures w'.task.writes != [] ==> w'.task.writes[0].thread <= k
    decreases |es|
  {
    if es != [] {
      var v := Step(w, name, number, es[0]);
      assert Runs(w, name, number, [es[0]], v) by { assert [es[0]][1..] == []; }
      assert StaysRegistered(k, name, number, [es[0]]);
      RunReaches(w, k, name, number, [es[0]], v);
      assert StaysRegistered(k, name, number, es[1..]);
      RunWritesEarly(v, k, name, number, es[1..], w');
    }
  }

  // ----- with nothing in flight -----

  /** The write a dispatch makes when no registration changes: the first match in thread-then-list order. */
  ghost predicate FirstInOrder(threads: seq<Thread>, name: string, number: nat, x: Write) {
    && x.thread < |threads| && (forall t :: 0 <= t <= x.thread ==> threads[t].hasEventBase)
    && (forall t :: 0 <= t < x.thread ==> !HasMatch(threads[t], name, number))
    && x.position == FirstMatch(threads[x.thread].conns, name, number) < |threads[x.thread].conns|
    && x.pipeline == threads[x.thread].conns[x.position].pipeline
  }

  /** Thread k has a usable registration and every hop up to it can be queued. */
  ghost predicate Reachable(threads: seq<Thread>, k: nat, name: string, number: nat) {
    k < |threads| && HasMatch(threads[k], name, number) && forall t :: 0 <= t <= k ==> threads[t].hasEventBase
  }

  /** Hop until the dispatch is over. */
  function Finish(w: World, name: string, number: nat): World
    requires w.task.queuedOn.Some? ==> w.task.queuedOn.value < |w.threads|
    decreases if w.task.queuedOn.Some? then |w.threads| - w.task.queuedOn.value else 0
  {
    if w.task.queuedOn.None? then w else Finish(RunHop(w, name, number), name, number)
  }

  lemma {:induction false} FinishWrites(w: World, name: string, number: nat)
    requires Inv(w) && w.task.queuedOn.Some?
    requires forall t :: 0 <= t <= w.task.queuedOn.value ==> w.threads[t].hasEventBase
    requires forall t :: 0 <= t < w.task.queuedOn.value ==> !HasMatch(w.threads[t], name, number)
    ensures var ws := Finish(w, name, number).task.writes;
      && |ws| <= 1 && (forall x :: x in ws ==> FirstInOrder(w.threads, name, number, x))
      && (ws == [] ==> forall k :: !Reachable(w.threads, k, name, number))
    decreases |w.threads| - w.task.queuedOn.value
  {
    var t := w.task.queuedOn.value;
    var v := RunHop(w, name, number);
    if v.task.queuedOn.Some? {
      FinishWrites(v, name, number);
    } else if v.task.writes == [] {
      assert t + 1 < |w.threads| ==> !w.threads[t + 1].hasEventBase;
    }
  }

  /** Finish is a run of hops and nothing else, after which the dispatch is over. */
  lemma {:induction false} FinishIsRun(w: World, name: string, number: nat) returns (es: seq<Event>)
    requires Inv(w)
    ensures Runs(w, name, number, es, Finish(w, name, number)) && (forall e :: e in es ==> e == Hop)
    ensures Finish(w, name, number).task.queuedOn.None?
    decreases if w.task.queuedOn.Some? then |w.threads| - w.task.queuedOn.value else 0
  {
    if w.task.queuedOn.None? { return []; }
    var rest := FinishIsRun(RunHop(w, name, number), name, number);
    es := [Hop] + rest;
    assert es[1..] == rest;
  }

  /** Hops alone leave no choice: any run of them that ends the dispatch ends where Finish does. */
  lemma {:induction false} HopsFinish(w: World, name: string, number: nat, es: seq<Event>, w': World)
    requires Inv(w) && Runs(w, name, number, es, w') && (forall i :: 0 <= i < |es| ==> es[i] == Hop)
    requires w'.task.queuedOn.None?
    ensures w' == Finish(w, name, number)
    decreases |es|
  {
    if es != [] {
      assert es[0] == Hop;
      HopsFinish(RunHop(w, name, number), name, number, es[1..], w');
    }
  }

  lemma QuietWrites(threads: seq<Thread>, name: string, number: nat, es: seq<Event>, w': World)
    requires Runs(Begin(threads), name, number, es, w') && (forall i :: 0 <= i < |es| ==> es[i] == Hop)
    requires w'.task.queuedOn.None?
    ensures var ws := w'.task.writes;
      && |ws| <= 1 && (forall x :: x in ws ==> FirstInOrder(threads, name, number, x))
      && (ws == [] ==> forall k :: !Reachable(threads, k, name, number))
  {
    var w := Begin(threads);
    HopsFinish(w, name, number, es, w');
    if w.task.queuedOn.Some? { FinishWrites(w, name, number); }
  }

  /** The registration differs in name or number or has no pipeline. */
  predicate Other(c: ServerConn, name: string, number: nat) {
    c.serverName != name || c.serverNumber != number || c.pipeline == 0
  }

  /** No registration on the thread is usable for the server. */
  ghost predicate NoneOn(thread: Thread, name: string, number: nat) {
    forall j :: 0 <= j < |thread.conns| ==> Other(thread.conns[j], name, number)
  }

  /** The write goes to a registration of that name and number with a pipeline, and none comes before it. */
  ghost predicate FirstOfServer(threads: seq<Thread>, name: string, number: nat, x: Write) {
    && x.thread < |threads| && (forall t :: 0 <= t <= x.thread ==> threads[t].hasEventBase)
    && (forall t :: 0 <= t < x.thread ==> NoneOn(threads[t], name, number))
    && var conns := threads[x.thread].conns;
      && x.position < |conns| && conns[x.position] == ServerConn(name, number, x.pipeline) && x.pipeline != 0
      && forall j :: 0 <= j < x.position ==> Other(conns[j], name, number)
  }

  lemma NoMatchNoneOn(thread: Thread, name: string, number: nat)
    requires !HasMatch(thread, name, number)
    ensures NoneOn(thread, name, number)
  {
    forall j | 0 <= j < |thread.conns| ensures Other(thread.conns[j], name, number) {
      assert !Matches(thread.conns[j], name, number);
    }
  }

  lemma FirstInOrderIsOfServer(threads: seq<Thread>, name: string, number: nat, x: Write)
    requires FirstInOrder(threads, name, number, x)
    ensures FirstOfServer(threads, name, number, x)
  {
    forall t | 0 <= t < x.thread ensures NoneOn(threads[t], name, number) {
      NoMatchNoneOn(threads[t], name, number);
    }
  }

  /**
   * With nothing in flight a dispatch that is over has written exactly to the first registration of that name and
   * number with a pipeline, and has written unless no thread it can reach has one.
   */
  lemma QuietDispatch(threads: seq<Thread>, name: string, number: nat, es: seq<Event>, w': World)
    requires Runs(Begin(threads), name, number, es, w') && (forall i :: 0 <= i < |es| ==> es[i] == Hop)
    requires w'.task.queuedOn.None?
    ensures |w'.task.writes| <= 1
    ensures forall x :: x in w'.task.writes ==> FirstOfServer(threads, name, number, x)
    ensures w'.task.writes == [] <==>
      forall k :: 0 <= k < |threads| && (forall t :: 0 <= t <= k ==> threads[t].hasEventBase) ==>
        NoneOn(threads[k], name, number)
  {
    QuietWrites(threads, name, number, es, w');
    forall x | x in w'.task.writes ensures FirstOfServer(threads, name, number, x) {
      FirstInOrderIsOfServer(threads, name, number, x);
    }
    if w'.task.writes == [] {
      forall k | 0 <= k < |threads| && (forall t :: 0 <= t <= k ==> threads[t].hasEventBase)
        ensures NoneOn(threads[k], name, number)
      {
        assert !Reachable(threads, k, name, number);
        NoMatchNoneOn(threads[k], name, number);
      }
    } else {
      var x := w'.task.writes[0];
      assert x in w'.task.writes;
      assert Other(threads[x.thread].conns[x.position], name, number) ==> false;
    }
  }

  /** There is such a run for any threads. */
  lemma QuietDispatchEnds(threads: seq<Thread>, name: string, number: nat)
    ensures exists es, w' ::
      && Runs(Begin(threads), name, number, es, w') && (forall e :: e in es ==> e == Hop)
      && w'.task.queuedOn.None?
  {
    var es := FinishIsRun(Begin(threads), name, number);
  }
}
