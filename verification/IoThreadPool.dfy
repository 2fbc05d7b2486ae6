/**
 * The pool in front of the I/O threads' connection managers: it picks the thread by the pipeline's event base and puts
 * the thread's number into the id (baselib/net/io_thread_pool_manager.cc, lines 228-256).
 */
module IoThreadPool {
  import opened ConnIds
  import opened IoThreadConns

  /** The id of a connection on an event base that is not the pool's. */
  const NO_THREAD: nat := 0xFFFF_FFFF_FFFF_FFFF

  /** The first thread on an event base; the number of threads when there is none. */
  function FirstOn(bases: seq<nat>, base: nat): (i: nat)
    ensures i <= |bases| && (i < |bases| ==> bases[i] == base)
    ensures forall j :: 0 <= j < i ==> bases[j] != base
  {
    if bases == [] || bases[0] == base then 0 else 1 + FirstOn(bases[1..], base)
  }

  function PoolId(bases: seq<nat>, base: nat, low: nat): nat
    requires low < U32
  {
    var i := FirstOn(bases, base);
    if i < |bases| then Compose(i, low) else NO_THREAD
  }

  /** The thread half of an id names a thread exactly when the connection's event base is the pool's. */
  lemma ClosableExactly(bases: seq<nat>, base: nat, low: nat)
    requires |bases| < U32 && low < U32
    ensures var id := PoolId(bases, base, low);
      && (High(id) < |bases| <==> base in bases)
      && (base in bases ==> High(id) == FirstOn(bases, base) && Low(id) == low)
  {
    var i := FirstOn(bases, base);
    if i < |bases| { ComposeSplits(i, low); }
  }

  class IOThreadPoolConnManager {
    const managers: seq<IOThreadConnManager>
    const bases: seq<nat>

    ghost predicate Valid()
      reads this, managers
    {
      && |managers| == |bases| < U32 && (forall i :: 0 <= i < |managers| ==> managers[i].Valid())
      && (forall i, j :: 0 <= i < j < |managers| ==> managers[i] != managers[j])
    }

    constructor (managers: seq<IOThreadConnManager>, bases: seq<nat>)
      requires |managers| == |bases| < U32 && (forall i :: 0 <= i < |managers| ==> managers[i].Valid())
      requires forall i, j :: 0 <= i < j < |managers| ==> managers[i] != managers[j]
      ensures Valid() && this.managers == managers && this.bases == bases
    {
      this.managers, this.bases := managers, bases;
    }

    /**
     * On an event base of the pool, the connection is opened on its thread and both halves of the id lead back to it.
     * On any other, nothing is opened and the id may not be closed.
     */
    method OnNewConnection(pipeline: Pipeline, eventBase: nat) returns (connId: nat)
      requires Valid()
      requires forall i :: 0 <= i < |bases| && bases[i] == eventBase ==>
        CanAllocate(U32, managers[i].currentConnId, managers[i].pipelines.Keys)
      modifies managers
      ensures Valid() && (High(connId) < |managers| <==> eventBase in bases)
      ensures eventBase !in bases ==>
        connId == NO_THREAD && forall m :: m in managers ==> m.View() == old(m.View())
      ensures eventBase in bases ==>
        var k := High(connId);
        && bases[k] == eventBase && Low(connId) !in old(managers[k].pipelines)
        && managers[k].View() == Step(old(managers[k].View()), managers[k].service, Open(pipeline))
        && Low(connId) in managers[k].pipelines && managers[k].pipelines[Low(connId)] == pipeline
        && forall i :: 0 <= i < |managers| && i != k ==> managers[i].View() == old(managers[i].View())
    {
      var i := 0;
      while i < |bases|
        invariant i <= FirstOn(bases, eventBase) && i <= |bases|
        invariant forall m :: m in managers ==> m.Valid() && m.View() == old(m.View())
      {
        if bases[i] == eventBase {
          var low := managers[i].OnNewConnection(pipeline);
          ComposeSplits(i, low);
          return Compose(i, low);
        }
        i := i + 1;
      }
      connId := NO_THREAD;
    }

    /** The thread half is an index without a check: only the id of a connection on a thread of the pool will do. */
    method OnConnectionClosed(connId: nat, pipeline: Pipeline)
      requires Valid() && High(connId) < |managers|
      modifies managers
      ensures Valid()
      ensures var k := High(connId);
        && managers[k].View() == Closed(old(managers[k].View()), managers[k].service, Low(connId), pipeline)
        && forall i :: 0 <= i < |managers| && i != k ==> managers[i].View() == old(managers[i].View())
    {
      managers[High(connId)].OnConnectionClosed(Low(connId), pipeline);
    }
  }
}
