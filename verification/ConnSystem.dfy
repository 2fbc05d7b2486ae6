/**
 * All threads' connection tables, their handlers and the sends between threads, as one run of events that begins
 * where the start of the thread groups ends (baselib/net/conn_handler.cc, lines 6-69;
 * baselib/net/thread_local_conn_manager.cc, lines 10-49; baselib/net/service_manager.cc, lines 116-133;
 * baselib/net/thread_group_list_manager.cc, lines 81-150). The steps on a table are those of module ThreadLocalConns.
 */
module ConnSystem {
  import opened Wrappers
  import opened ConnIds
  import opened ThreadLocalConns
  import opened ThreadGroups

  /** An activated handler; `issued` is the allocation-loop iteration of its thread that gave it its id. */
  datatype Handler = Handler(state: ConnState, connId: nat, thread: nat, issued: nat, closeCalls: nat)

  /** A send on its way to a thread, addressed with the id that was issued to the handler `target`. */
  datatype Message = Message(target: nat, connId: nat)

  /** What became of a send: `age` is how many iterations the thread had run since it issued the id. */
  datatype Outcome = Outcome(target: nat, age: int, targetOpen: bool, written: Option<nat>)

  /**
   * The whole process: the started threads, a table for each, and the handlers, whose numbers stand for their
   * pipelines. `notFound` counts closes whose id was not in the table, `refused` sends to a thread without an event
   * base, `faults` accesses beyond the last thread.
   */
  datatype System = System(groups: Groups, tables: seq<Table>, handlers: map<nat, Handler>, pending: seq<Message>,
                           log: seq<Outcome>, notFound: nat, refused: nat, faults: nat)

  datatype Event =
    | Activate(handler: nat, thread: nat)
    | Read(handler: nat, length: nat)
    | ReadEof(handler: nat)
    | ReadException(handler: nat)
    | Close(handler: nat)
    | Send(handler: nat)
    | Deliver(index: nat)

  ghost predicate Modulus(m: nat) { 2 <= m <= U32 }

  // ----- steps -----

  /** Each handler is activated once, on a thread with an event base; the other events concern activated handlers. */
  ghost predicate Legal(m: nat, s: System, e: Event)
    requires Modulus(m)
  {
    match e
    case Activate(h, t) =>
      && h !in s.handlers && t < |s.tables| && t < |s.groups.threads| && s.groups.threads[t].hasEventBase
      && CanOpen(m, s.tables[t])
    case Deliver(i) => i < |s.pending|
    case _ => e.handler in s.handlers
  }

  ghost function Step(m: nat, s: System, e: Event): System
    requires Modulus(m) && Legal(m, s, e)
  {
    match e
    case Activate(h, t) => DoActivate(m, s, h, t)
    case Read(h, length) => if length == 0 then DoClose(s, h) else s
    case ReadEof(h) => DoClose(s, h)
    case ReadException(h) => DoClose(s, h)
    case Close(h) => DoClose(s, h)
    case Send(h) => DoSend(s, h)
    case Deliver(i) => DoDeliver(s, i)
  }

  ghost function DoActivate(m: nat, s: System, h: nat, t: nat): System
    requires Modulus(m) && Legal(m, s, Activate(h, t))
  {
    var table := Opened(m, s.tables[t], h);
    var connId := Compose(ManagerId(s.groups, t), NextId(m, s.tables[t]));
    s.(tables := s.tables[t := table], handlers := s.handlers[h := Handler(Connected, connId, t, table.tries - 1, 0)])
  }

  /** The number a thread's connection manager puts into its ids; 0 unless it was set. */
  function ManagerId(g: Groups, t: nat): nat {
    if t in g.managerIds then g.managerIds[t] else 0
  }

  ghost function DoClose(s: System, h: nat): System
    requires h in s.handlers
  {
    var handler := s.handlers[h];
    if handler.state != Connected then s
    else if handler.thread >= |s.tables| then s.(faults := s.faults + 1)
    else
      var table := s.tables[handler.thread];
      var low := Low(handler.connId);
      s.(tables := s.tables[handler.thread := Forgotten(table, low)],
         handlers := s.handlers[h := handler.(state := Closed, closeCalls := handler.closeCalls + 1)],
         notFound := if low in table.pipelines then s.notFound else s.notFound + 1)
  }

  ghost function DoSend(s: System, h: nat): System
    requires h in s.handlers
  {
    var connId := s.handlers[h].connId;
    if High(connId) >= |s.groups.threads| then s.(faults := s.faults + 1)
    else if s.groups.threads[High(connId)].hasEventBase
    then s.(pending := s.pending + [Message(h, connId)])
    else s.(refused := s.refused + 1)
  }

  ghost function DoDeliver(s: System, i: nat): System
    requires i < |s.pending|
  {
    var message := s.pending[i];
    if High(message.connId) >= |s.tables| || message.target !in s.handlers then s.(faults := s.faults + 1) else
    var table := s.tables[High(message.connId)];
    var target := s.handlers[message.target];
    s.(pending := s.pending[..i] + s.pending[i + 1..],
       log := s.log + [Outcome(message.target, table.tries - target.issued - 1, target.state == Connected,
                               PipelineOf(table, Low(message.connId)))])
  }

  // ----- the invariant -----

  ghost predicate TableOk(m: nat, table: Table)
    requires Modulus(m)
  {
    table.counter == CounterAt(m, 0, table.tries)
  }

  ghost predicate EntryOk(s: System, t: nat, id: nat)
    requires t < |s.tables| && id in s.tables[t].pipelines
  {
    var h := s.tables[t].pipelines[id];
    && h in s.handlers && s.handlers[h].state == Connected
    && s.handlers[h].thread == t && Low(s.handlers[h].connId) == id
  }

  ghost predicate HandlerOk(m: nat, s: System, h: nat)
    requires Modulus(m) && h in s.handlers
  {
    var handler := s.handlers[h];
    && handler.state != Idle && handler.thread < |s.tables| == |s.groups.threads|
    && s.groups.threads[handler.thread].hasEventBase
    && handler.issued < s.tables[handler.thread].tries
    && handler.connId == Compose(handler.thread, IdAt(m, 0, handler.issued))
    && handler.closeCalls == (if handler.state == Closed then 1 else 0)
    && (handler.state == Connected ==>
          && Low(handler.connId) in s.tables[handler.thread].pipelines
          && s.tables[handler.thread].pipelines[Low(handler.connId)] == h)
  }

  /** Of the handlers that were ever given the same id, a connected one was given it last. */
  ghost predicate LatestOwner(s: System, p: nat, q: nat)
    requires p in s.handlers && q in s.handlers
  {
    (p != q && s.handlers[q].state == Connected && s.handlers[p].connId == s.handlers[q].connId) ==>
      s.handlers[p].issued < s.handlers[q].issued
  }

  ghost predicate MessageOk(s: System, message: Message) {
    message.target in s.handlers && message.connId == s.handlers[message.target].connId
  }

  /** The routing promise, for one send. */
  ghost predicate Routed(m: nat, o: Outcome) {
    && (o.targetOpen ==> o.written == Some(o.target))
    && (!o.targetOpen && o.age < m - 1 ==> o.written == None)
  }

  ghost predicate TablesInv(m: nat, s: System)
    requires Modulus(m)
  {
    && |s.tables| == |s.groups.threads| <= U32 && Consistent(s.groups)
    && forall t :: 0 <= t < |s.tables| ==> TableOk(m, s.tables[t])
  }

  ghost predicate EntriesInv(s: System) {
    forall t, id :: 0 <= t < |s.tables| && id in s.tables[t].pipelines ==> EntryOk(s, t, id)
  }

  ghost predicate HandlersInv(m: nat, s: System)
    requires Modulus(m)
  {
    forall h :: h in s.handlers ==> HandlerOk(m, s, h)
  }

  ghost predicate OwnersInv(s: System) {
    forall p, q :: p in s.handlers && q in s.handlers ==> LatestOwner(s, p, q)
  }

  ghost predicate MessagesInv(m: nat, s: System) {
    && (forall i :: 0 <= i < |s.pending| ==> MessageOk(s, s.pending[i]))
    && (forall i :: 0 <= i < |s.log| ==> Routed(m, s.log[i]))
  }

  ghost predicate Inv(m: nat, s: System)
    requires Modulus(m)
  {
    && s.notFound == 0 && s.refused == 0 && s.faults == 0
    && TablesInv(m, s) && EntriesInv(s) && HandlersInv(m, s) && OwnersInv(s) && MessagesInv(m, s)
  }

  // ----- every step keeps it -----

  lemma IdOfHandler(m: nat, s: System, h: nat)
    requires Modulus(m) && TablesInv(m, s) && h in s.handlers && HandlerOk(m, s, h)
    ensures High(s.handlers[h].connId) == s.handlers[h].thread < |s.tables|
    ensures Low(s.handlers[h].connId) == IdAt(m, 0, s.handlers[h].issued)
  {
    ComposeSplits(s.handlers[h].thread, IdAt(m, 0, s.handlers[h].issued));
  }

  lemma OpenEffect(m: nat, table: Table, h: nat)
    requires Modulus(m) && TableOk(m, table) && CanOpen(m, table)
    ensures var after := Opened(m, table, h);
      && TableOk(m, after) && after.tries > table.tries && NextId(m, table) == IdAt(m, 0, after.tries - 1)
  {
    var n := Ending(m, table.counter, table.pipelines.Keys);
    CounterAtSum(m, 0, table.tries, n + 1);
    IdAtSum(m, 0, table.tries, n);
  }

  /** What an activation does, in terms of the thread's whole history of iterations. */
  lemma ActivateEffect(m: nat, s: System, h: nat, t: nat) returns (low: nat)
    requires Modulus(m) && TablesInv(m, s) && Legal(m, s, Activate(h, t))
    ensures var s' := DoActivate(m, s, h, t);
      && |s'.tables| == |s.tables| && low < m && low !in s.tables[t].pipelines
      && (forall u :: 0 <= u < |s.tables| && u != t ==> s'.tables[u] == s.tables[u])
      && s'.tables[t].pipelines == s.tables[t].pipelines[low := h]
      && TableOk(m, s'.tables[t]) && s'.tables[t].tries > s.tables[t].tries
      && s' == s.(tables := s'.tables, handlers := s.handlers[h := s'.handlers[h]])
      && s'.handlers[h] == Handler(Connected, Compose(t, low), t, s'.tables[t].tries - 1, 0)
      && low == IdAt(m, 0, s'.tables[t].tries - 1) && Low(Compose(t, low)) == low
  {
    low := NextId(m, s.tables[t]);
    assert TableOk(m, s.tables[t]);
    OpenEffect(m, s.tables[t], h);
    assert ManagerId(s.groups, t) == t;
    ComposeSplits(t, low);
  }

  lemma ActivateKeepsEntries(m: nat, s: System, h: nat, t: nat)
    requires Modulus(m) && TablesInv(m, s) && EntriesInv(s) && Legal(m, s, Activate(h, t))
    ensures EntriesInv(DoActivate(m, s, h, t))
  {
    var low := ActivateEffect(m, s, h, t);
    var s' := DoActivate(m, s, h, t);
    forall u, id | 0 <= u < |s'.tables| && id in s'.tables[u].pipelines ensures EntryOk(s', u, id) {
      if u != t || id != low { assert EntryOk(s, u, id); }
    }
  }

  lemma ActivateKeepsHandlers(m: nat, s: System, h: nat, t: nat)
    requires Modulus(m) && TablesInv(m, s) && HandlersInv(m, s) && Legal(m, s, Activate(h, t))
    ensures HandlersInv(m, DoActivate(m, s, h, t))
  {
    var low := ActivateEffect(m, s, h, t);
    var s' := DoActivate(m, s, h, t);
    forall g | g in s'.handlers ensures HandlerOk(m, s', g) {
      if g != h { assert HandlerOk(m, s, g); }
    }
  }

  lemma ActivateKeepsOwners(m: nat, s: System, h: nat, t: nat)
    requires Modulus(m) && TablesInv(m, s) && HandlersInv(m, s) && OwnersInv(s) && Legal(m, s, Activate(h, t))
    ensures OwnersInv(DoActivate(m, s, h, t))
  {
    var low := ActivateEffect(m, s, h, t);
    var s' := DoActivate(m, s, h, t);
    ComposeSplits(t, low);
    forall p, q | p in s'.handlers && q in s'.handlers ensures LatestOwner(s', p, q) {
      if p != h && q != h {
        assert LatestOwner(s, p, q);
      } else if p != q {
        var g := if p == h then q else p;
        assert HandlerOk(m, s, g);
        IdOfHandler(m, s, g);
      }
    }
  }

  lemma ActivateKeeps(m: nat, s: System, h: nat, t: nat)
    requires Modulus(m) && Inv(m, s) && Legal(m, s, Activate(h, t))
    ensures Inv(m, DoActivate(m, s, h, t))
  {
    ActivateKeepsEntries(m, s, h, t);
    ActivateKeepsHandlers(m, s, h, t);
    ActivateKeepsOwners(m, s, h, t);
    ActivateKeepsMessages(m, s, h, t);
  }

  lemma ActivateKeepsMessages(m: nat, s: System, h: nat, t: nat)
    requires Modulus(m) && TablesInv(m, s) && MessagesInv(m, s) && Legal(m, s, Activate(h, t))
    ensures TablesInv(m, DoActivate(m, s, h, t)) && MessagesInv(m, DoActivate(m, s, h, t))
  {
    var low := ActivateEffect(m, s, h, t);
    var s' := DoActivate(m, s, h, t);
    forall i | 0 <= i < |s'.pending| ensures MessageOk(s', s'.pending[i]) {
      assert MessageOk(s, s.pending[i]);
    }
  }

  lemma CloseKeepsEntries(m: nat, s: System, h: nat)
    requires Modulus(m) && EntriesInv(s) && h in s.handlers && HandlerOk(m, s, h)
    ensures EntriesInv(DoClose(s, h))
  {
    var s' := DoClose(s, h);
    forall t, id | 0 <= t < |s'.tables| && id in s'.tables[t].pipelines ensures EntryOk(s', t, id) {
      assert EntryOk(s, t, id);
    }
  }

  lemma CloseKeepsHandlers(m: nat, s: System, h: nat)
    requires Modulus(m) && HandlersInv(m, s) && h in s.handlers
    ensures HandlersInv(m, DoClose(s, h))
  {
    assert HandlerOk(m, s, h);
    var s' := DoClose(s, h);
    forall g | g in s'.handlers ensures HandlerOk(m, s', g) {
      assert HandlerOk(m, s, g);
    }
  }

  lemma CloseKeepsOwners(m: nat, s: System, h: nat)
    requires Modulus(m) && OwnersInv(s) && MessagesInv(m, s) && h in s.handlers
    ensures OwnersInv(DoClose(s, h)) && MessagesInv(m, DoClose(s, h))
  {
    var s' := DoClose(s, h);
    forall p, q | p in s'.handlers && q in s'.handlers ensures LatestOwner(s', p, q) {
      assert LatestOwner(s, p, q);
    }
    forall i | 0 <= i < |s'.pending| ensures MessageOk(s', s'.pending[i]) {
      assert MessageOk(s, s.pending[i]);
    }
  }

  lemma CloseKeeps(m: nat, s: System, h: nat)
    requires Modulus(m) && Inv(m, s) && h in s.handlers
    ensures Inv(m, DoClose(s, h))
  {
    assert HandlerOk(m, s, h);
    CloseKeepsEntries(m, s, h);
    CloseKeepsHandlers(m, s, h);
    CloseKeepsOwners(m, s, h);
  }

  /** Sends and deliveries leave tables and handlers alone. */
  lemma SameConnections(m: nat, s: System, s': System)
    requires Modulus(m) && Inv(m, s) && s' == s.(pending := s'.pending, log := s'.log)
    ensures TablesInv(m, s') && EntriesInv(s') && HandlersInv(m, s') && OwnersInv(s')
  {
    forall t, id | 0 <= t < |s'.tables| && id in s'.tables[t].pipelines ensures EntryOk(s', t, id) {
      assert EntryOk(s, t, id);
    }
    forall h | h in s'.handlers ensures HandlerOk(m, s', h) { assert HandlerOk(m, s, h); }
    forall p, q | p in s'.handlers && q in s'.handlers ensures LatestOwner(s', p, q) { assert LatestOwner(s, p, q); }
  }

  lemma SendKeeps(m: nat, s: System, h: nat)
    requires Modulus(m) && Inv(m, s) && h in s.handlers
    ensures Inv(m, DoSend(s, h))
  {
    assert HandlerOk(m, s, h);
    IdOfHandler(m, s, h);
    var s' := DoSend(s, h);
    SameConnections(m, s, s');
    forall i | 0 <= i < |s'.pending| ensures MessageOk(s', s'.pending[i]) {
      if i < |s.pending| { assert MessageOk(s, s.pending[i]); }
    }
  }

  /** A closed connection's id is back in the table only after the thread has run a whole lap of iterations. */
  lemma ReusedOnlyAfterLap(m: nat, s: System, p: nat)
    requires Modulus(m) && Inv(m, s) && p in s.handlers && s.handlers[p].state == Closed
    requires s.handlers[p].thread < |s.tables|
    requires Low(s.handlers[p].connId) in s.tables[s.handlers[p].thread].pipelines
    ensures s.tables[s.handlers[p].thread].tries - s.handlers[p].issued - 1 >= m - 1
  {
    var t, id := s.handlers[p].thread, Low(s.handlers[p].connId);
    assert EntryOk(s, t, id);
    var q := s.tables[t].pipelines[id];
    assert HandlerOk(m, s, p) && HandlerOk(m, s, q);
    IdOfHandler(m, s, p);
    IdOfHandler(m, s, q);
    assert LatestOwner(s, p, q);
    if s.handlers[q].issued < s.handlers[p].issued + m - 1 {
      NoEarlyRepeat(m, 0, s.handlers[p].issued, s.handlers[q].issued);
      assert false;
    }
  }

  lemma DeliverRouted(m: nat, s: System, i: nat)
    requires Modulus(m) && Inv(m, s) && i < |s.pending|
    ensures var s' := DoDeliver(s, i);
      && s' == s.(pending := s.pending[..i] + s.pending[i + 1..], log := s'.log)
      && |s'.log| == |s.log| + 1 && s'.log[..|s.log|] == s.log && Routed(m, s'.log[|s.log|])
  {
    var p := s.pending[i].target;
    assert MessageOk(s, s.pending[i]);
    assert HandlerOk(m, s, p);
    IdOfHandler(m, s, p);
    var o := DoDeliver(s, i).log[|s.log|];
    if s.handlers[p].state == Closed && o.written.Some? { ReusedOnlyAfterLap(m, s, p); }
  }

  lemma DeliverKeeps(m: nat, s: System, i: nat)
    requires Modulus(m) && Inv(m, s) && i < |s.pending|
    ensures Inv(m, DoDeliver(s, i))
  {
    DeliverRouted(m, s, i);
    var s' := DoDeliver(s, i);
    SameConnections(m, s, s');
    DeliveredMessages(m, s, s', i);
  }

  lemma DeliveredMessages(m: nat, s: System, s': System, i: nat)
    requires MessagesInv(m, s) && i < |s.pending|
    requires s' == s.(pending := s.pending[..i] + s.pending[i + 1..], log := s'.log)
    requires |s'.log| == |s.log| + 1 && s'.log[..|s.log|] == s.log && Routed(m, s'.log[|s.log|])
    ensures MessagesInv(m, s')
  {
    forall j | 0 <= j < |s'.pending| ensures MessageOk(s', s'.pending[j]) {
      assert MessageOk(s, s.pending[if j < i then j else j + 1]);
    }
    forall j | 0 <= j < |s'.log| ensures Routed(m, s'.log[j]) {
      if j < |s.log| { assert s'.log[j] == s'.log[..|s.log|][j]; }
    }
  }

  lemma StepKeeps(m: nat, s: System, e: Event)
    requires Modulus(m) && Inv(m, s) && Legal(m, s, e)
    ensures Inv(m, Step(m, s, e))
  {
    match e
    case Activate(h, t) => ActivateKeeps(m, s, h, t);
    case Send(h) => SendKeeps(m, s, h);
    case Deliver(i) => DeliverKeeps(m, s, i);
    case _ => CloseKeeps(m, s, e.handler);
  }

  // ----- whole runs -----

  /** The thread groups have just started: nothing open, nothing sent. */
  function Started(options: seq<ThreadOption>): System {
    var g := Initialize(EMPTY, options);
    System(g, seq(|g.threads|, _ => EMPTY_TABLE), map[], [], [], 0, 0, 0)
  }

  /** A thread's number fits the 32 bits it gets in an id. */
  predicate FewThreads(options: seq<ThreadOption>) { |Initialize(EMPTY, options).threads| <= U32 }

  lemma StartedInv(m: nat, options: seq<ThreadOption>)
    requires Modulus(m) && FewThreads(options)
    ensures Inv(m, Started(options))
  {
    InitializeConsistent(EMPTY, options);
  }

  /** s' is reached from s by the events es, each legal where it happens. */
  ghost predicate Runs(m: nat, s: System, es: seq<Event>, s': System)
    requires Modulus(m)
    decreases |es|
  {
    if es == [] then s' == s
    else Legal(m, s, es[0]) && Runs(m, Step(m, s, es[0]), es[1..], s')
  }

  lemma {:induction false} RunKeeps(m: nat, s: System, es: seq<Event>, s': System)
    requires Modulus(m) && Inv(m, s) && Runs(m, s, es, s')
    ensures Inv(m, s')
    decreases |es|
  {
    if es != [] {
      StepKeeps(m, s, es[0]);
      RunKeeps(m, Step(m, s, es[0]), es[1..], s');
    }
  }

  /** In every state of every run, tables and handlers agree one to one and each handler was closed at most once. */
  lemma TablesMatchHandlers(m: nat, options: seq<ThreadOption>, es: seq<Event>, s': System)
    requires Modulus(m) && FewThreads(options) && Runs(m, Started(options), es, s')
    ensures s'.notFound == 0 && s'.refused == 0 && s'.faults == 0
    ensures forall h :: h in s'.handlers ==>
      && s'.handlers[h].closeCalls == (if s'.handlers[h].state == Closed then 1 else 0)
      && s'.handlers[h].thread < |s'.tables|
      && (s'.handlers[h].state == Connected <==>
            exists id :: id in s'.tables[s'.handlers[h].thread].pipelines
                         && s'.tables[s'.handlers[h].thread].pipelines[id] == h)
    ensures forall t, id :: 0 <= t < |s'.tables| && id in s'.tables[t].pipelines ==>
      var h := s'.tables[t].pipelines[id];
      && h in s'.handlers && s'.handlers[h].state == Connected
      && s'.handlers[h].thread == t && Low(s'.handlers[h].connId) == id
    ensures forall t, id, id' ::
      (0 <= t < |s'.tables| && id in s'.tables[t].pipelines && id' in s'.tables[t].pipelines
       && s'.tables[t].pipelines[id] == s'.tables[t].pipelines[id']) ==> id == id'
  {
    StartedInv(m, options);
    RunKeeps(m, Started(options), es, s');
    forall h | h in s'.handlers ensures HandlerOk(m, s', h) {}
    forall t, id | 0 <= t < |s'.tables| && id in s'.tables[t].pipelines ensures EntryOk(s', t, id) {}
  }

  /**
   * In every state of every run, an end of file, a read error, an empty read or a close leaves the handler closed and
   * its id leading nowhere; a handler that was closed before, and everything else, stays as it was.
   */
  lemma CloseTakesEffect(m: nat, options: seq<ThreadOption>, es: seq<Event>, s: System, e: Event)
    requires Modulus(m) && FewThreads(options) && Runs(m, Started(options), es, s) && Legal(m, s, e)
    requires e.ReadEof? || e.ReadException? || e.Close? || (e.Read? && e.length == 0)
    ensures e.handler in s.handlers && ClosedBy(s, e.handler, Step(m, s, e))
  {
    StartedInv(m, options);
    RunKeeps(m, Started(options), es, s);
    assert HandlerOk(m, s, e.handler);
    assert Step(m, s, e) == DoClose(s, e.handler);
    CloseEffect(m, s, e.handler);
  }

  /** s' is s with handler h closed: out of its thread's table, where it was, if connected, and nothing else changed. */
  ghost predicate ClosedBy(s: System, h: nat, s': System)
    requires h in s.handlers
  {
    var was := s.handlers[h];
    && s'.handlers == s.handlers[h := was.(state := Closed, closeCalls := 1)]
    && s' == s.(tables := s'.tables, handlers := s'.handlers)
    && was.thread < |s.tables| == |s'.tables|
    && (was.state == Connected ==> PipelineOf(s.tables[was.thread], Low(was.connId)) == Some(h))
    && (forall t :: 0 <= t < |s.tables| && t != was.thread ==> s'.tables[t] == s.tables[t])
    && s'.tables[was.thread].pipelines ==
         if was.state == Connected then s.tables[was.thread].pipelines - {Low(was.connId)}
         else s.tables[was.thread].pipelines
  }

  lemma CloseEffect(m: nat, s: System, h: nat)
    requires Modulus(m) && Inv(m, s) && h in s.handlers
    ensures ClosedBy(s, h, DoClose(s, h))
  {
    assert HandlerOk(m, s, h);
    var was := s.handlers[h];
    if was.state == Closed {
      assert was.(state := Closed, closeCalls := 1) == was;
      assert s.handlers[h := was] == s.handlers;
    }
  }

  /** A close is counted as a miss exactly when a connected handler's id is not in its thread's table. */
  lemma CloseMissesExactly(s: System, h: nat)
    requires h in s.handlers && s.handlers[h].thread < |s.tables|
    ensures DoClose(s, h).notFound > s.notFound <==>
      && s.handlers[h].state == Connected
      && Low(s.handlers[h].connId) !in s.tables[s.handlers[h].thread].pipelines
  {
  }

  /** A read with something in it changes nothing. */
  lemma ReadChangesNothing(m: nat, s: System, h: nat, length: nat)
    requires Modulus(m) && Legal(m, s, Read(h, length)) && length > 0
    ensures Step(m, s, Read(h, length)) == s
  {
  }

  /**
   * In every state of every run, an activation connects the handler: under an id that was free, whose halves are its
   * thread and its entry there; nothing else changes.
   */
  lemma ActivateConnects(m: nat, options: seq<ThreadOption>, es: seq<Event>, s: System, h: nat, t: nat)
    requires Modulus(m) && FewThreads(options) && Runs(m, Started(options), es, s) && Legal(m, s, Activate(h, t))
    ensures var s' := Step(m, s, Activate(h, t));
      && |s'.tables| == |s.tables| && h in s'.handlers && s'.handlers[h].state == Connected
      && s'.handlers[h].thread == t == High(s'.handlers[h].connId)
      && Low(s'.handlers[h].connId) !in s.tables[t].pipelines
      && s'.tables[t].pipelines == s.tables[t].pipelines[Low(s'.handlers[h].connId) := h]
      && (forall u :: 0 <= u < |s.tables| && u != t ==> s'.tables[u] == s.tables[u])
      && s' == s.(tables := s'.tables, handlers := s.handlers[h := s'.handlers[h]])
  {
    StartedInv(m, options);
    RunKeeps(m, Started(options), es, s);
    var low := ActivateEffect(m, s, h, t);
    ComposeSplits(t, low);
  }

  // ----- no send is lost -----

  /** The handlers that a run sends to, as often as it does. */
  function Sends(es: seq<Event>): multiset<nat> {
    if es == [] then multiset{}
    else (if es[0].Send? then multiset{es[0].handler} else multiset{}) + Sends(es[1..])
  }

  function Underway(pending: seq<Message>): seq<nat> {
    seq(|pending|, i requires 0 <= i < |pending| => pending[i].target)
  }

  function Arrived(log: seq<Outcome>): seq<nat> { seq(|log|, i requires 0 <= i < |log| => log[i].target) }

  function Accounted(s: System): multiset<nat> { multiset(Underway(s.pending)) + multiset(Arrived(s.log)) }

  lemma SendAccounted(m: nat, s: System, h: nat)
    requires Modulus(m) && Inv(m, s) && h in s.handlers
    ensures Accounted(DoSend(s, h)) == Accounted(s) + multiset{h}
  {
    assert HandlerOk(m, s, h);
    IdOfHandler(m, s, h);
    var s' := DoSend(s, h);
    assert Underway(s'.pending) == Underway(s.pending) + [h];
  }

  lemma DeliverAccounted(m: nat, s: System, i: nat)
    requires Modulus(m) && Inv(m, s) && i < |s.pending|
    ensures Accounted(DoDeliver(s, i)) == Accounted(s)
  {
    DeliverRouted(m, s, i);
    assert MessageOk(s, s.pending[i]);
    UnderwayRemoved(s.pending, i);
    ArrivedLonger(s.log, DoDeliver(s, i).log);
  }

  lemma UnderwayRemoved(pending: seq<Message>, i: nat)
    requires i < |pending|
    ensures multiset(Underway(pending))
         == multiset(Underway(pending[..i] + pending[i + 1..])) + multiset{pending[i].target}
  {
    var before, after := Underway(pending[..i]), Underway(pending[i + 1..]);
    assert Underway(pending) == before + [pending[i].target] + after;
    assert Underway(pending[..i] + pending[i + 1..]) == before + after;
  }

  lemma ArrivedLonger(log: seq<Outcome>, longer: seq<Outcome>)
    requires |longer| == |log| + 1 && longer[..|log|] == log
    ensures multiset(Arrived(longer)) == multiset(Arrived(log)) + multiset{longer[|log|].target}
  {
    assert Arrived(longer) == Arrived(log) + [longer[|log|].target] by {
      assert forall i :: 0 <= i < |log| ==> longer[i] == longer[..|log|][i];
    }
  }

  lemma StepAccounted(m: nat, s: System, e: Event)
    requires Modulus(m) && Inv(m, s) && Legal(m, s, e)
    ensures Accounted(Step(m, s, e)) == Accounted(s) + if e.Send? then multiset{e.handler} else multiset{}
  {
    if e.Send? {
      SendAccounted(m, s, e.handler);
      assert Step(m, s, e) == DoSend(s, e.handler);
    } else if e.Deliver? {
      DeliverAccounted(m, s, e.index);
      assert Step(m, s, e) == DoDeliver(s, e.index);
    } else {
      SameMail(m, s, e);
    }
  }

  lemma SameMail(m: nat, s: System, e: Event)
    requires Modulus(m) && Inv(m, s) && Legal(m, s, e) && !e.Send? && !e.Deliver?
    ensures Accounted(Step(m, s, e)) == Accounted(s)
  {
    if e.Activate? {
      var low := ActivateEffect(m, s, e.handler, e.thread);
    }
    assert Step(m, s, e).pending == s.pending && Step(m, s, e).log == s.log;
  }

  lemma {:induction false} RunAccounted(m: nat, s: System, es: seq<Event>, s': System)
    requires Modulus(m) && Inv(m, s) && Runs(m, s, es, s')
    ensures Accounted(s') == Accounted(s) + Sends(es)
    decreases |es|
  {
    if es != [] {
      StepKeeps(m, s, es[0]);
      StepAccounted(m, s, es[0]);
      RunAccounted(m, Step(m, s, es[0]), es[1..], s');
    }
  }

  /** In every run, every send is either under way or has arrived, once, and nothing else is. */
  lemma NoSendLost(m: nat, options: seq<ThreadOption>, es: seq<Event>, s: System)
    requires Modulus(m) && FewThreads(options) && Runs(m, Started(options), es, s)
    ensures Accounted(s) == Sends(es)
    ensures |Sends(es)| == |s.pending| + |s.log|
  {
    StartedInv(m, options);
    RunAccounted(m, Started(options), es, s);
  }

  /** In every state of every run, no two open connections share a 64-bit id, whatever their threads. */
  lemma OpenIdsDistinct(m: nat, options: seq<ThreadOption>, es: seq<Event>, s': System, p: nat, q: nat)
    requires Modulus(m) && FewThreads(options) && Runs(m, Started(options), es, s')
    requires p in s'.handlers && q in s'.handlers && p != q
    requires s'.handlers[p].state == Connected && s'.handlers[q].state == Connected
    ensures s'.handlers[p].connId != s'.handlers[q].connId
  {
    StartedInv(m, options);
    RunKeeps(m, Started(options), es, s');
    assert HandlerOk(m, s', p) && HandlerOk(m, s', q);
    IdOfHandler(m, s', p);
    IdOfHandler(m, s', q);
  }

  /**
   * In every run, a send by id is written to the pipeline that id was issued to if that is still open, and is
   * dropped if it has closed, unless the thread has run a whole lap of iterations since it issued the id.
   */
  lemma RoutingSafe(m: nat, options: seq<ThreadOption>, es: seq<Event>, s': System)
    requires Modulus(m) && FewThreads(options) && Runs(m, Started(options), es, s')
    ensures forall i :: 0 <= i < |s'.log| ==> Routed(m, s'.log[i])
  {
    StartedInv(m, options);
    RunKeeps(m, Started(options), es, s');
  }

  // ----- the lap is exact -----

  /** A thread to open connections on. */
  predicate Usable(options: seq<ThreadOption>, t: nat) {
    && FewThreads(options)
    && var threads := Initialize(EMPTY, options).threads; t < |threads| && threads[t].hasEventBase
  }

  /** Only thread t has been used so far. */
  function Busy(options: seq<ThreadOption>, t: nat, table: Table, handlers: map<nat, Handler>, pending: seq<Message>)
    : System
    requires Usable(options, t)
  {
    var s := Started(options);
    s.(tables := s.tables[t := table], handlers := handlers, pending := pending)
  }

  /** The handler that was given the id of iteration n. */
  function HandlerAt(m: nat, t: nat, n: nat, open: bool): Handler
    requires Modulus(m)
  {
    Handler(if open then Connected else Closed, Compose(t, IdAt(m, 0, n)), t, n, if open then 0 else 1)
  }

  /** The first n handlers have come and, but for `kept`, gone, one iteration each. */
  function Handlers(m: nat, t: nat, n: nat, kept: Option<nat>): map<nat, Handler>
    requires Modulus(m)
  {
    map h: nat | h < n :: HandlerAt(m, t, h, kept == Some(h))
  }

  function Entries(m: nat, kept: Option<nat>): map<nat, nat>
    requires Modulus(m)
  {
    if kept.None? then map[] else map[IdAt(m, 0, kept.value) := kept.value]
  }

  /** After n iterations, with at most one connection open. */
  function Quiet(m: nat, options: seq<ThreadOption>, t: nat, n: nat, kept: Option<nat>, pending: seq<Message>): System
    requires Modulus(m) && Usable(options, t)
  {
    Busy(options, t, Table(CounterAt(m, 0, n), n, Entries(m, kept)), Handlers(m, t, n, kept), pending)
  }

  /** The same with one more, the handler of iteration n. */
  function OneMore(m: nat, options: seq<ThreadOption>, t: nat, n: nat, kept: Option<nat>, pending: seq<Message>): System
    requires Modulus(m) && Usable(options, t)
  {
    Busy(options, t, Table(CounterAt(m, 0, n + 1), n + 1, Entries(m, kept)[IdAt(m, 0, n) := n]),
         Handlers(m, t, n, kept)[n := HandlerAt(m, t, n, true)], pending)
  }

  /** Iteration n does not meet the id of the connection that is kept. */
  predicate Clear(m: nat, n: nat, kept: Option<nat>) { kept.Some? ==> kept.value < n < kept.value + m - 1 }

  /** Runs, under a name of its own to keep it folded. */
  ghost predicate Leads(m: nat, s: System, es: seq<Event>, s': System)
    requires Modulus(m)
  {
    Runs(m, s, es, s')
  }

  lemma LeadsAfter(m: nat, s: System, e: Event, es: seq<Event>, s': System)
    requires Modulus(m) && Legal(m, s, e) && Leads(m, Step(m, s, e), es, s')
    ensures Leads(m, s, [e] + es, s')
  {
    assert ([e] + es)[1..] == es;
  }

  /** The table's side of an opening. */
  lemma QuietTableOpens(m: nat, n: nat, kept: Option<nat>)
    requires Modulus(m) && Clear(m, n, kept)
    ensures var table := Table(CounterAt(m, 0, n), n, Entries(m, kept));
      && CanOpen(m, table) && NextId(m, table) == IdAt(m, 0, n)
      && Opened(m, table, n) == Table(CounterAt(m, 0, n + 1), n + 1, Entries(m, kept)[IdAt(m, 0, n) := n])
  {
    var table := Table(CounterAt(m, 0, n), n, Entries(m, kept));
    if kept.Some? { NoEarlyRepeat(m, 0, kept.value, n); }
    IdAtSum(m, 0, n, 0);
    assert IdAt(m, table.counter, 0) !in table.pipelines.Keys;
    assert CanOpen(m, table);
    EndingUnique(m, table.counter, table.pipelines.Keys, 0);
    CounterAtSum(m, 0, n, 1);
  }

  lemma OwnNumber(options: seq<ThreadOption>, t: nat)
    requires Usable(options, t)
    ensures ManagerId(Initialize(EMPTY, options), t) == t
  {
    InitializeConsistent(EMPTY, options);
  }

  lemma QuietOpens(m: nat, options: seq<ThreadOption>, t: nat, n: nat, kept: Option<nat>, pending: seq<Message>)
    requires Modulus(m) && Usable(options, t) && Clear(m, n, kept)
    ensures Legal(m, Quiet(m, options, t, n, kept, pending), Activate(n, t))
    ensures DoActivate(m, Quiet(m, options, t, n, kept, pending), n, t) == OneMore(m, options, t, n, kept, pending)
  {
    var s := Quiet(m, options, t, n, kept, pending);
    OwnNumber(options, t);
    QuietTableOpens(m, n, kept);
    assert DoActivate(m, s, n, t).tables == OneMore(m, options, t, n, kept, pending).tables;
  }

  lemma HandlersLonger(m: nat, t: nat, n: nat, kept: Option<nat>)
    requires Modulus(m) && Clear(m, n, kept)
    ensures Handlers(m, t, n, kept)[n := HandlerAt(m, t, n, true)][n := HandlerAt(m, t, n, false)]
         == Handlers(m, t, n + 1, kept)
  {
  }

  lemma OneMoreCloses(m: nat, options: seq<ThreadOption>, t: nat, n: nat, kept: Option<nat>, pending: seq<Message>)
    requires Modulus(m) && Usable(options, t) && Clear(m, n, kept)
    ensures DoClose(OneMore(m, options, t, n, kept, pending), n) == Quiet(m, options, t, n + 1, kept, pending)
  {
    var s, low := OneMore(m, options, t, n, kept, pending), IdAt(m, 0, n);
    ComposeSplits(t, low);
    if kept.Some? { NoEarlyRepeat(m, 0, kept.value, n); }
    assert Entries(m, kept)[low := n] - {low} == Entries(m, kept);
    assert Forgotten(s.tables[t], low) == Table(CounterAt(m, 0, n + 1), n + 1, Entries(m, kept));
    assert DoClose(s, n).tables == Quiet(m, options, t, n + 1, kept, pending).tables;
    HandlersLonger(m, t, n, kept);
  }

  /** With nothing else open, the one more may be the one that is kept. */
  lemma OneMoreKept(m: nat, options: seq<ThreadOption>, t: nat, n: nat, pending: seq<Message>)
    requires Modulus(m) && Usable(options, t)
    ensures OneMore(m, options, t, n, None, pending) == Quiet(m, options, t, n + 1, Some(n), pending)
  {
    assert Handlers(m, t, n, None)[n := HandlerAt(m, t, n, true)] == Handlers(m, t, n + 1, Some(n));
    assert Entries(m, None)[IdAt(m, 0, n) := n] == Entries(m, Some(n));
  }

  /** A run from such a state, under a name of its own to keep it folded. */
  ghost predicate From(m: nat, options: seq<ThreadOption>, t: nat, n: nat, kept: Option<nat>, pending: seq<Message>,
                       es: seq<Event>, s': System)
    requires Modulus(m) && Usable(options, t)
  {
    Leads(m, Quiet(m, options, t, n, kept, pending), es, s')
  }

  ghost predicate SameId(m: nat, a: nat, b: nat)
    requires Modulus(m)
  {
    IdAt(m, 0, a) == IdAt(m, 0, b)
  }

  lemma Cycle(m: nat, options: seq<ThreadOption>, t: nat, n: nat, kept: Option<nat>, pending: seq<Message>,
              es: seq<Event>, s': System) returns (all: seq<Event>)
    requires Modulus(m) && Usable(options, t) && Clear(m, n, kept)
    requires From(m, options, t, n + 1, kept, pending, es, s')
    ensures From(m, options, t, n, kept, pending, all, s')
  {
    OneMoreCloses(m, options, t, n, kept, pending);
    LeadsAfter(m, OneMore(m, options, t, n, kept, pending), Close(n), es, s');
    QuietOpens(m, options, t, n, kept, pending);
    LeadsAfter(m, Quiet(m, options, t, n, kept, pending), Activate(n, t), [Close(n)] + es, s');
    all := [Activate(n, t)] + ([Close(n)] + es);
  }

  lemma {:induction false} Cycles(m: nat, options: seq<ThreadOption>, t: nat, n: nat, last: nat, kept: Option<nat>,
                                  pending: seq<Message>, es: seq<Event>, s': System) returns (all: seq<Event>)
    requires Modulus(m) && Usable(options, t) && n <= last
    requires kept.Some? ==> kept.value < n && last <= kept.value + m - 1
    requires From(m, options, t, last, kept, pending, es, s')
    ensures From(m, options, t, n, kept, pending, all, s')
    decreases last - n
  {
    if n == last { return es; }
    var rest := Cycles(m, options, t, n + 1, last, kept, pending, es, s');
    all := Cycle(m, options, t, n, kept, pending, rest, s');
  }

  function SendTo(m: nat, t: nat, n: nat): Message
    requires Modulus(m)
  {
    Message(n, Compose(t, IdAt(m, 0, n)))
  }

  /** The send to handler n, which finds the connection that is kept under the same id. */
  lemma LateDelivery(m: nat, options: seq<ThreadOption>, t: nat, n: nat, kept: nat, last: nat) returns (s': System)
    requires Modulus(m) && Usable(options, t) && n < kept < last && SameId(m, kept, n)
    ensures From(m, options, t, last, Some(kept), [SendTo(m, t, n)], [Deliver(0)], s')
    ensures s'.log == [Outcome(n, last - n - 1, false, Some(kept))]
  {
    var s := Quiet(m, options, t, last, Some(kept), [SendTo(m, t, n)]);
    ComposeSplits(t, IdAt(m, 0, n));
    assert s.handlers[n] == HandlerAt(m, t, n, false);
    s' := DoDeliver(s, 0);
    LeadsAfter(m, s, Deliver(0), [], s');
  }

  /** Handler n comes, is sent to and goes. */
  lemma SendCycle(m: nat, options: seq<ThreadOption>, t: nat, n: nat, es: seq<Event>, s': System)
    returns (all: seq<Event>)
    requires Modulus(m) && Usable(options, t)
    requires From(m, options, t, n + 1, None, [SendTo(m, t, n)], es, s')
    ensures From(m, options, t, n, None, [], all, s')
  {
    OneMoreCloses(m, options, t, n, None, [SendTo(m, t, n)]);
    LeadsAfter(m, OneMore(m, options, t, n, None, [SendTo(m, t, n)]), Close(n), es, s');
    OneMoreSends(m, options, t, n);
    LeadsAfter(m, OneMore(m, options, t, n, None, []), Send(n), [Close(n)] + es, s');
    QuietOpens(m, options, t, n, None, []);
    LeadsAfter(m, Quiet(m, options, t, n, None, []), Activate(n, t), [Send(n)] + ([Close(n)] + es), s');
    all := [Activate(n, t)] + ([Send(n)] + ([Close(n)] + es));
  }

  lemma OneMoreSends(m: nat, options: seq<ThreadOption>, t: nat, n: nat)
    requires Modulus(m) && Usable(options, t)
    ensures DoSend(OneMore(m, options, t, n, None, []), n) == OneMore(m, options, t, n, None, [SendTo(m, t, n)])
  {
    ComposeSplits(t, IdAt(m, 0, n));
    assert [] + [SendTo(m, t, n)] == [SendTo(m, t, n)];
  }

  /** The stranger comes at iteration n and stays, while others come and go. */
  lemma StrangerStays(m: nat, options: seq<ThreadOption>, t: nat, n: nat, last: nat, pending: seq<Message>,
                      es: seq<Event>, s': System) returns (all: seq<Event>)
    requires Modulus(m) && Usable(options, t) && n < last <= n + m - 1
    requires From(m, options, t, last, Some(n), pending, es, s')
    ensures From(m, options, t, n, None, pending, all, s')
  {
    var late := Cycles(m, options, t, n + 1, last, Some(n), pending, es, s');
    OneMoreKept(m, options, t, n, pending);
    QuietOpens(m, options, t, n, None, pending);
    LeadsAfter(m, Quiet(m, options, t, n, None, pending), Activate(n, t), late, s');
    all := [Activate(n, t)] + late;
  }

  lemma QuietFromStart(m: nat, options: seq<ThreadOption>, t: nat)
    requires Modulus(m) && Usable(options, t)
    ensures Quiet(m, options, t, 0, None, []) == Started(options)
  {
    assert Started(options).tables[t := EMPTY_TABLE] == Started(options).tables;
  }

  /**
   * The lap is exact, for every modulus and thread: at any age of a lap or more, a send to a closed connection can
   * reach a stranger.
   */
  lemma LapIsTight(m: nat, options: seq<ThreadOption>, t: nat, age: nat)
    requires Modulus(m) && Usable(options, t) && age >= m - 1
    ensures exists es, s', stranger ::
      Leads(m, Started(options), es, s') && s'.log == [Outcome(1, age, false, Some(stranger))]
  {
    var es, s', stranger := TightRun(m, options, t, 1, age);
    es := Cycles(m, options, t, 0, 1, None, [], es, s');
    QuietFromStart(m, options, t);
    assert Leads(m, Started(options), es, s');
  }

  /** The stranger comes on the last iteration, so far, that offers the id of handler n. */
  lemma TightRun(m: nat, options: seq<ThreadOption>, t: nat, n: nat, age: nat)
    returns (es: seq<Event>, s': System, stranger: nat)
    requires Modulus(m) && Usable(options, t) && n > 0 && age >= m - 1
    ensures From(m, options, t, n, None, [], es, s') && s'.log == [Outcome(n, age, false, Some(stranger))]
  {
    var laps := WholeLaps(m - 1, age);
    stranger := n + LapSteps(m - 1, laps);
    assert SameId(m, stranger, n) by { RepeatsAfterLaps(m, 0, n, laps); }
    assert stranger > n by { assert laps > 0; }
    es, s' := LateRun(m, options, t, n, stranger, n + age + 1);
  }

  /** Handler n comes, is sent to and goes; the stranger comes at iteration `kept`; the send arrives. */
  lemma LateRun(m: nat, options: seq<ThreadOption>, t: nat, n: nat, kept: nat, last: nat)
    returns (es: seq<Event>, s': System)
    requires Modulus(m) && Usable(options, t) && n < kept < last <= kept + m - 1
    requires SameId(m, kept, n)
    ensures From(m, options, t, n, None, [], es, s')
    ensures s'.log == [Outcome(n, last - n - 1, false, Some(kept))]
  {
    es, s' := StrangerRun(m, options, t, n, kept, last, [SendTo(m, t, n)]);
    es := SentBefore(m, options, t, n, kept, es, s');
  }

  lemma SentBefore(m: nat, options: seq<ThreadOption>, t: nat, n: nat, last: nat, es: seq<Event>, s': System)
    returns (all: seq<Event>)
    requires Modulus(m) && Usable(options, t) && n < last && From(m, options, t, last, None, [SendTo(m, t, n)], es, s')
    ensures From(m, options, t, n, None, [], all, s')
  {
    var late := Cycles(m, options, t, n + 1, last, None, [SendTo(m, t, n)], es, s');
    all := SendCycle(m, options, t, n, late, s');
  }

  lemma StrangerRun(m: nat, options: seq<ThreadOption>, t: nat, n: nat, kept: nat, last: nat, sent: seq<Message>)
    returns (es: seq<Event>, s': System)
    requires Modulus(m) && Usable(options, t) && n < kept < last <= kept + m - 1
    requires SameId(m, kept, n) && sent == [SendTo(m, t, n)]
    ensures From(m, options, t, kept, None, sent, es, s')
    ensures s'.log == [Outcome(n, last - n - 1, false, Some(kept))]
  {
    s' := LateDelivery(m, options, t, n, kept, last);
    es := StrangerStays(m, options, t, kept, last, sent, [Deliver(0)], s');
  }

  /** Some run sends to a closed connection, `age` iterations after its id was issued, and reaches a stranger. */
  ghost predicate ReachesStranger(m: nat, options: seq<ThreadOption>, age: nat)
    requires Modulus(m)
  {
    exists es, s', o :: Leads(m, Started(options), es, s') && o in s'.log && Astray(o, age)
  }

  ghost predicate Astray(o: Outcome, age: nat) { o.age == age && !o.targetOpen && o.written.Some? }

  /** A send reaches a stranger in some run exactly at the ages of a lap or more. */
  lemma StrangerExactly(m: nat, options: seq<ThreadOption>, t: nat, age: nat)
    requires Modulus(m) && Usable(options, t)
    ensures ReachesStranger(m, options, age) <==> age >= m - 1
  {
    if age >= m - 1 {
      LapIsTight(m, options, t, age);
      var es, s', stranger :|
        Leads(m, Started(options), es, s') && s'.log == [Outcome(1, age, false, Some(stranger))];
      assert s'.log[0] in s'.log && Astray(s'.log[0], age);
    }
    if es, s', o :| Leads(m, Started(options), es, s') && o in s'.log && Astray(o, age) {
      RoutingSafe(m, options, es, s');
      var i :| 0 <= i < |s'.log| && s'.log[i] == o;
    }
  }
}
