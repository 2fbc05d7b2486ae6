/**
 * One thread's connection table and the handler that keeps its entry
 * (baselib/net/thread_local_conn_manager.cc, lines 10-49; baselib/net/conn_handler.cc, lines 6-69).
 */
module ThreadLocalConns {
  import opened Wrappers
  import opened ConnIds

  /** A pipeline's address. */
  type Pipeline = nat

  /** A thread's table; `tries` counts the iterations its allocation loop has run so far. */
  datatype Table = Table(counter: nat, tries: nat, pipelines: map<nat, Pipeline>)

  const EMPTY_TABLE: Table := Table(0, 0, map[])

  /** The allocation loop ends. */
  ghost predicate CanOpen(modulus: nat, table: Table) {
    2 <= modulus && table.counter < modulus && CanAllocate(modulus, table.counter, table.pipelines.Keys)
  }

  /** The id the next connection gets. */
  ghost function NextId(modulus: nat, table: Table): (id: nat)
    requires CanOpen(modulus, table)
    ensures id < modulus && id !in table.pipelines
  {
    IdAt(modulus, table.counter, Ending(modulus, table.counter, table.pipelines.Keys))
  }

  ghost function Opened(modulus: nat, table: Table, pipeline: Pipeline): Table
    requires CanOpen(modulus, table)
  {
    var n := Ending(modulus, table.counter, table.pipelines.Keys);
    Table(CounterAt(modulus, table.counter, n + 1), table.tries + n + 1,
          table.pipelines[NextId(modulus, table) := pipeline])
  }

  function Forgotten(table: Table, id: nat): Table { table.(pipelines := table.pipelines - {id}) }

  function PipelineOf(table: Table, id: nat): Option<Pipeline> {
    if id in table.pipelines then Some(table.pipelines[id]) else None
  }

  class ThreadLocalConnManager {
    var threadId: nat
    var currentConnId: nat
    var pipelines: map<nat, Pipeline>
    ghost var tries: nat

    ghost function View(): Table
      reads this
    {
      Table(currentConnId, tries, pipelines)
    }

    ghost predicate Valid()
      reads this
    {
      currentConnId < U32 && forall id :: id in pipelines ==> id < U32
    }

    constructor ()
      ensures Valid() && threadId == 0 && View() == EMPTY_TABLE
    {
      threadId, currentConnId, pipelines, tries := 0, 0, map[], 0;
    }

    /** Opens a connection under the first id on the ring that is not live. The loop ends only by finding one. */
    method OnNewConnection(pipeline: Pipeline) returns (connId: nat)
      requires Valid() && CanOpen(U32, View())
      modifies this`currentConnId, this`pipelines, this`tries
      ensures Valid()
      ensures Low(connId) !in old(pipelines) && pipelines == old(pipelines)[Low(connId) := pipeline]
      ensures View() == Opened(U32, old(View()), pipeline)
      ensures connId == Compose(threadId, NextId(U32, old(View())))
    {
      ghost var last := Ending(U32, currentConnId, pipelines.Keys);
      var id := Allocate(pipeline, last);
      LowOfCompose(threadId, id);
      connId := Compose(threadId, id);
    }

    /** The allocation loop, which ends with iteration `last`. */
    method Allocate(pipeline: Pipeline, ghost last: nat) returns (id: nat)
      requires currentConnId < U32 && EndsAt(U32, currentConnId, pipelines.Keys, last)
      modifies this`currentConnId, this`pipelines, this`tries
      ensures id == IdAt(U32, old(currentConnId), last) && id !in old(pipelines)
      ensures currentConnId == CounterAt(U32, old(currentConnId), last + 1) && tries == old(tries) + last + 1
      ensures pipelines == old(pipelines)[id := pipeline]
    {
      id := 0;
      var success := false;
      ghost var start, n: nat := currentConnId, 0;
      while !success
        invariant n <= last + 1 && currentConnId == CounterAt(U32, start, n) && tries == old(tries) + n
        invariant !success ==> n <= last && pipelines == old(pipelines)
        invariant success ==> n == last + 1 && id == IdAt(U32, start, last)
                              && pipelines == old(pipelines)[id := pipeline]
        decreases last + 1 - n
      {
        id := (currentConnId + 1) % U32;
        currentConnId := id;
        if id == 0 {
          currentConnId := (currentConnId + 1) % U32;
        }
        LoopStep(U32, start, n, last, id, currentConnId, pipelines.Keys);
        if id !in pipelines {
          pipelines := pipelines[id := pipeline];
          success := true;
        }
        n, tries := n + 1, tries + 1;
      }
    }

    method OnConnectionClosed(connId: nat) returns (found: bool)
      requires Valid()
      modifies this`pipelines
      ensures Valid()
      ensures found == (Low(connId) in old(pipelines)) && View() == Forgotten(old(View()), Low(connId))
    {
      found := true;
      if Low(connId) in pipelines {
        pipelines := pipelines - {Low(connId)};
      } else {
        found := false;
        assert pipelines == pipelines - {Low(connId)};
      }
    }

    /** The pipeline the buffer is written to, if any: that of the connected handler with this id. */
    method SendIOBufByConnId(connId: nat) returns (written: Option<Pipeline>)
      requires Valid()
      ensures written == PipelineOf(View(), Low(connId))
      ensures forall h: ConnHandler ::
        h.manager == this && h.Valid() && h.connState == Connected && h.connId == connId ==> written == Some(h.pipeline)
    {
      written := if Low(connId) in pipelines then Some(pipelines[Low(connId)]) else None;
    }
  }

  datatype ConnState = Idle | Connected | Closed

  class ConnHandler {
    const manager: ThreadLocalConnManager
    const pipeline: Pipeline
    var connState: ConnState
    var connId: nat
    var remoteAddress: string

    /** A connected handler's id leads to its own pipeline. */
    ghost predicate Valid()
      reads this, manager
    {
      && manager.Valid()
      && (connState.Connected? ==>
            Low(connId) in manager.pipelines && manager.pipelines[Low(connId)] == pipeline)
    }

    constructor (manager: ThreadLocalConnManager, pipeline: Pipeline)
      requires manager.Valid()
      ensures Valid() && connState == Idle && this.manager == manager && this.pipeline == pipeline
    {
      this.manager, this.pipeline := manager, pipeline;
      connState, connId, remoteAddress := Idle, 0, "";
    }

    method TransportActive(address: string)
      requires Valid() && CanOpen(U32, manager.View())
      modifies this`connState, this`connId, this`remoteAddress
      modifies manager`currentConnId, manager`pipelines, manager`tries
      ensures Valid() && connState == Connected && remoteAddress == address
      ensures manager.View() == Opened(U32, old(manager.View()), pipeline)
      ensures connId == Compose(manager.threadId, NextId(U32, old(manager.View())))
      ensures Low(connId) !in old(manager.pipelines)
      ensures manager.pipelines == old(manager.pipelines)[Low(connId) := pipeline]
    {
      connState := Connected;
      remoteAddress := address;
      connId := manager.OnNewConnection(pipeline);
    }

    /** However often it is called, the manager is told once, and finds the entry when it is told. */
    method Close() returns (notified: bool, found: bool)
      requires Valid()
      modifies this`connState, this`remoteAddress, manager`pipelines
      ensures Valid() && connState != Connected
      ensures notified == (old(connState) == Connected)
      ensures if notified
              then found && connState == Closed && remoteAddress == ""
                   && manager.View() == Forgotten(old(manager.View()), Low(connId))
              else connState == old(connState) && remoteAddress == old(remoteAddress)
                   && manager.View() == old(manager.View())
    {
      notified, found := false, false;
      if connState == Connected {
        found := manager.OnConnectionClosed(connId);
        notified := true;
        connState := Closed;
        remoteAddress := "";
      }
    }

    /** The peer has closed, or the transport has failed: either closes the connection. */
    method ReadEof() returns (notified: bool)
      requires Valid()
      modifies this`connState, this`remoteAddress, manager`pipelines
      ensures Valid() && connState != Connected && notified == (old(connState) == Connected)
      ensures manager.View() == if notified then Forgotten(old(manager.View()), Low(connId)) else old(manager.View())
      ensures connState == if notified then Closed else old(connState)
    {
      var found;
      notified, found := Close();
    }

    method ReadException() returns (notified: bool)
      requires Valid()
      modifies this`connState, this`remoteAddress, manager`pipelines
      ensures Valid() && connState != Connected && notified == (old(connState) == Connected)
      ensures manager.View() == if notified then Forgotten(old(manager.View()), Low(connId)) else old(manager.View())
      ensures connState == if notified then Closed else old(connState)
    {
      var found;
      notified, found := Close();
    }

    /** An empty buffer closes the connection; anything else is left to the decoder. */
    method Read(length: nat) returns (notified: bool)
      requires Valid()
      modifies this`connState, this`remoteAddress, manager`pipelines
      ensures Valid()
      ensures notified == (length == 0 && old(connState) == Connected)
      ensures manager.View() == if notified then Forgotten(old(manager.View()), Low(connId)) else old(manager.View())
      ensures connState == if notified then Closed else old(connState)
    {
      notified := false;
      if length == 0 {
        var found;
        notified, found := Close();
      }
    }
  }
}
