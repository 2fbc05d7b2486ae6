/**
 * A TCP client that keeps reconnecting (baselib/net/server/tcp_client.cc, lines 22-83;
 * baselib/net/base/client_bootstrap2.h, lines 36-102), as a run of event-loop events.
 */
module TcpReconnect {
  import opened Wrappers

  /**
   * `bootstrap` is the client's bootstrap object, null after Stop, with the pipeline of its last connect.
   * `attempts` are connects not yet answered, `live` the pipelines that report their deletion here, `timers` the
   * reconnects that are scheduled. `faults` counts uses of the bootstrap after Stop, `badDeletes` failed checks that
   * the deleted pipeline is the bootstrap's.
   */
  datatype Client = Client(started: bool, stopped: bool, connected: bool, bootstrap: Option<Option<nat>>, created: nat,
                           attempts: set<nat>, live: set<nat>, timers: nat, faults: nat, badDeletes: nat)

  const INIT: Client := Client(false, false, false, Some(None), 0, {}, {}, 0, 0, 0)

  datatype Event = Start | Connected(attempt: nat) | Failed(attempt: nat) | Deleted(pipeline: nat) | TimerFires | Stop

  // ----- what the code does -----

  /** Every connect makes a new pipeline, which becomes the bootstrap's. */
  function DoConnect(c: Client): Client {
    if c.bootstrap.None? then c.(faults := c.faults + 1)
    else c.(bootstrap := Some(Some(c.created)), attempts := c.attempts + {c.created}, created := c.created + 1)
  }

  /** The success handler works on the bootstrap's pipeline. */
  function OnConnected(c: Client, attempt: nat): Client {
    var c1 := c.(attempts := c.attempts - {attempt});
    if c1.bootstrap.None? || c1.bootstrap.value.None? then c1.(faults := c1.faults + 1)
    else c1.(live := c1.live + {c1.bootstrap.value.value}, connected := true)
  }

  function OnFailed(c: Client, attempt: nat): Client {
    var c1 := c.(attempts := c.attempts - {attempt});
    if c1.bootstrap.None? then c1.(faults := c1.faults + 1) else c1.(timers := c1.timers + 1)
  }

  function DeletePipeline(c: Client, pipeline: nat): Client {
    var c1 := c.(connected := false, live := c.live - {pipeline});
    if c1.bootstrap.None? then c1.(faults := c1.faults + 1)
    else if c1.bootstrap != Some(Some(pipeline)) then c1.(badDeletes := c1.badDeletes + 1)
    else if c1.stopped then c1
    else c1.(timers := c1.timers + 1)
  }

  /** Closing the pipeline deletes it before Stop goes on to drop the bootstrap. */
  function DoStop(c: Client): Client {
    var c1 := c.(stopped := true);
    var c2 :=
      if !c1.connected then c1
      else if c1.bootstrap.None? || c1.bootstrap.value.None? then c1.(faults := c1.faults + 1)
      else DeletePipeline(c1, c1.bootstrap.value.value);
    c2.(bootstrap := None)
  }

  /** Started and stopped once; each attempt is answered once, each timer fires once, each pipeline is deleted once. */
  predicate Legal(c: Client, e: Event) {
    match e
    case Start => !c.started
    case Connected(a) => a in c.attempts
    case Failed(a) => a in c.attempts
    case Deleted(p) => p in c.live
    case TimerFires => c.timers > 0
    case Stop => c.started && !c.stopped
  }

  function Step(c: Client, e: Event): Client {
    match e
    case Start => DoConnect(c.(started := true))
    case Connected(a) => OnConnected(c, a)
    case Failed(a) => OnFailed(c, a)
    case Deleted(p) => DeletePipeline(c, p)
    case TimerFires => if c.timers == 0 then c else DoConnect(c.(timers := c.timers - 1))
    case Stop => DoStop(c)
  }

  ghost predicate Runs(c: Client, es: seq<Event>, c': Client)
    decreases |es|
  {
    if es == [] then c' == c else Legal(c, es[0]) && Runs(Step(c, es[0]), es[1..], c')
  }

  // ----- between Start and Stop -----

  ghost predicate Connecting(c: Client) {
    c.bootstrap.Some? && c.bootstrap.value.Some?
    && c.attempts == {c.bootstrap.value.value} && c.live == {} && c.timers == 0
  }

  ghost predicate Online(c: Client) {
    c.bootstrap.Some? && c.bootstrap.value.Some?
    && c.attempts == {} && c.live == {c.bootstrap.value.value} && c.timers == 0
  }

  ghost predicate WaitingToRetry(c: Client) {
    c.bootstrap.Some? && c.attempts == {} && c.live == {} && c.timers == 1
  }

  /** What may still happen after Stop: at most the one thing that was on its way. */
  ghost predicate Winding(c: Client) {
    c.bootstrap.None? && c.live == {} && |c.attempts| + c.timers + c.faults <= 1
  }

  ghost predicate Inv(c: Client) {
    && c.badDeletes == 0 && (c.connected <==> c.live != {})
    && (if !c.started then c == INIT
        else if !c.stopped then c.faults == 0 && (Connecting(c) || Online(c) || WaitingToRetry(c))
        else Winding(c))
  }

  lemma StepKeeps(c: Client, e: Event)
    requires Inv(c) && Legal(c, e)
    ensures Inv(Step(c, e))
  {
    if c.stopped {
      if e.Connected? || e.Failed? {
        assert |c.attempts - {e.attempt}| == |c.attempts| - 1;
      }
    }
  }

  lemma {:induction false} RunKeeps(c: Client, es: seq<Event>, c': Client)
    requires Inv(c) && Runs(c, es, c')
    ensures Inv(c')
    decreases |es|
  {
    if es != [] {
      StepKeeps(c, es[0]);
      RunKeeps(Step(c, es[0]), es[1..], c');
    }
  }

  /**
   * In every run, from Start until Stop the client is connecting, connected or waiting to retry, exactly one of them;
   * it never has two connections, it says it is connected exactly when it has one, and the check on deletion holds.
   */
  lemma OnePhaseAtATime(es: seq<Event>, c: Client)
    requires Runs(INIT, es, c)
    ensures c.badDeletes == 0 && (c.connected <==> c.live != {}) && |c.live| <= 1
    ensures c.started && !c.stopped ==>
      && |c.attempts| + |c.live| + c.timers == 1 && c.faults == 0
      && (c.connected ==> c.bootstrap.Some? && c.bootstrap.value.Some? && c.live == {c.bootstrap.value.value})
    ensures c.stopped ==> !c.connected && |c.attempts| + c.timers <= 1
  {
    RunKeeps(INIT, es, c);
  }

  lemma RunsAfter(c: Client, e: Event, es: seq<Event>, c': Client)
    requires Legal(c, e) && Runs(Step(c, e), es, c')
    ensures Runs(c, [e] + es, c')
  {
    assert ([e] + es)[1..] == es;
  }

  /** From every state between Start and Stop the client can be connected. */
  lemma CanConnect(es: seq<Event>, c: Client) returns (more: seq<Event>, c': Client)
    requires Runs(INIT, es, c) && c.started && !c.stopped
    ensures Runs(c, more, c') && c'.connected && !c'.stopped && |more| <= 2
  {
    RunKeeps(INIT, es, c);
    more, c' := Connects(c);
  }

  lemma Connects(c: Client) returns (more: seq<Event>, c': Client)
    requires Inv(c) && c.started && !c.stopped
    ensures Runs(c, more, c') && c'.connected && !c'.stopped && |more| <= 2
    ensures c.attempts == {} && c.live == {} ==> c'.live == {c.created}
  {
    if Online(c) {
      more, c' := [], c;
    } else if Connecting(c) {
      more, c' := Succeeds(c);
    } else {
      StepKeeps(c, TimerFires);
      more, c' := Succeeds(Step(c, TimerFires));
      RunsAfter(c, TimerFires, more, c');
      more := [TimerFires] + more;
    }
  }

  lemma Succeeds(c: Client) returns (more: seq<Event>, c': Client)
    requires Connecting(c)
    ensures Runs(c, more, c') && c'.connected && c'.live == c.attempts && c'.stopped == c.stopped && |more| == 1
  {
    var a := c.bootstrap.value.value;
    c' := Step(c, Connected(a));
    RunsAfter(c, Connected(a), [], c');
    more := [Connected(a)] + [];
  }

  /** A connection that is lost can be replaced by a new one. */
  lemma LossIsRepaired(es: seq<Event>, c: Client) returns (p: nat, more: seq<Event>, c': Client)
    requires Runs(INIT, es, c) && c.connected
    ensures c.live == {p} && Runs(c, [Deleted(p)] + more, c') && c'.connected && c'.live == {c.created} != c.live
  {
    RunKeeps(INIT, es, c);
    p := c.bootstrap.value.value;
    StepKeeps(c, Deleted(p));
    PipelinesAreOld(es, c);
    more, c' := Connects(Step(c, Deleted(p)));
    RunsAfter(c, Deleted(p), more, c');
    assert p in c.live && c.created !in c.live;
  }

  /** Every pipeline there is was made before the next one. */
  ghost predicate Old(c: Client) {
    && (forall p :: p in c.live || p in c.attempts ==> p < c.created)
    && (c.bootstrap.Some? && c.bootstrap.value.Some? ==> c.bootstrap.value.value < c.created)
  }

  lemma ConnectIsOld(c: Client)
    requires Old(c)
    ensures Old(DoConnect(c))
  {
  }

  lemma DeleteIsOld(c: Client, p: nat)
    requires Old(c)
    ensures Old(DeletePipeline(c, p))
  {
  }

  lemma AnswerIsOld(c: Client, a: nat)
    requires Old(c)
    ensures Old(OnConnected(c, a)) && Old(OnFailed(c, a))
  {
  }

  lemma StepIsOld(c: Client, e: Event)
    requires Old(c)
    ensures Old(Step(c, e))
  {
    match e
    case Start => ConnectIsOld(c.(started := true));
    case Connected(a) => AnswerIsOld(c, a);
    case Failed(a) => AnswerIsOld(c, a);
    case Deleted(p) => DeleteIsOld(c, p);
    case TimerFires => if c.timers > 0 { ConnectIsOld(c.(timers := c.timers - 1)); }
    case Stop =>
      var c1 := c.(stopped := true);
      if c1.connected && c1.bootstrap.Some? && c1.bootstrap.value.Some? { DeleteIsOld(c1, c1.bootstrap.value.value); }
  }

  lemma {:induction false} RunIsOld(c: Client, es: seq<Event>, c': Client)
    requires Old(c) && Runs(c, es, c')
    ensures Old(c')
    decreases |es|
  {
    if es != [] {
      StepIsOld(c, es[0]);
      RunIsOld(Step(c, es[0]), es[1..], c');
    }
  }

  lemma PipelinesAreOld(es: seq<Event>, c: Client)
    requires Runs(INIT, es, c)
    ensures Old(c)
  {
    RunIsOld(INIT, es, c);
  }

  // ----- after Stop -----

  lemma {:induction false} WindsDown(c: Client, es: seq<Event>, c': Client)
    requires Inv(c) && c.stopped && c.faults == 0 && Runs(c, es, c')
    ensures |es| <= |c.attempts| + c.timers && c'.faults == |es|
    ensures |c'.attempts| + c'.timers == |c.attempts| + c.timers - |es|
  {
    if es != [] {
      var c1 := Step(c, es[0]);
      StepKeeps(c, es[0]);
      if es[0].Connected? || es[0].Failed? {
        assert |c.attempts - {es[0].attempt}| == |c.attempts| - 1;
      }
      assert |c1.attempts| + c1.timers == 0 && c1.faults == 1;
      assert c1.attempts == {};
      assert es[1..] == [];
    }
  }

  /**
   * Stop schedules nothing, but it cancels nothing either. Stopping is final exactly when the client was connected;
   * otherwise one connect or one timer is left over, and when it fires it finds the bootstrap gone.
   */
  lemma StopIsFinalExactly(es: seq<Event>, c: Client, later: seq<Event>, c': Client)
    requires Runs(INIT, es, c) && Legal(c, Stop) && Runs(Step(c, Stop), later, c')
    ensures var c1 := Step(c, Stop);
      && (c.connected <==> forall e :: !Legal(c1, e))
      && (c.connected ==> later == [] && c'.faults == 0)
      && (!c.connected ==> |later| <= 1 && c'.faults == |later|)
  {
    RunKeeps(INIT, es, c);
    StepKeeps(c, Stop);
    var c1 := Step(c, Stop);
    WindsDown(c1, later, c');
    if !c.connected {
      if c.timers == 1 {
        assert Legal(c1, TimerFires);
      } else {
        assert c.bootstrap.value.value in c1.attempts;
        assert Legal(c1, Failed(c.bootstrap.value.value));
      }
    } else {
      assert c1.attempts == {} && c1.timers == 0;
    }
  }

  /** Both leftovers do come: a connect that is answered after Stop, and a reconnect timer that fires after it. */
  lemma StopLeavesAFault() returns (answered: Client, fired: Client)
    ensures Runs(INIT, [Start] + ([Stop] + [Failed(0)]), answered) && answered.faults == 1
    ensures Runs(INIT, [Start] + ([Failed(0)] + ([Stop] + [TimerFires])), fired) && fired.faults == 1
  {
    var c1 := Step(INIT, Start);
    var c2 := Step(c1, Stop);
    answered := Step(c2, Failed(0));
    RunsAfter(c2, Failed(0), [], answered);
    RunsAfter(c1, Stop, [Failed(0)], answered);
    RunsAfter(INIT, Start, [Stop] + [Failed(0)], answered);
    fired := RetryAfterStop(c1);
    RunsAfter(INIT, Start, [Failed(0)] + ([Stop] + [TimerFires]), fired);
  }

  lemma RetryAfterStop(c: Client) returns (fired: Client)
    requires Legal(c, Failed(0)) && Legal(c, Stop) && Connecting(c) && !c.connected && c.faults == 0
    ensures Runs(c, [Failed(0)] + ([Stop] + [TimerFires]), fired) && fired.faults == 1
  {
    var c2 := Step(c, Failed(0));
    var c3 := Step(c2, Stop);
    fired := Step(c3, TimerFires);
    RunsAfter(c3, TimerFires, [], fired);
    RunsAfter(c2, Stop, [TimerFires], fired);
    RunsAfter(c, Failed(0), [Stop] + [TimerFires], fired);
  }

  // ----- the object -----

  /** The client's own fields; the sets and counts are the event loop's side of the story. */
  class TcpClient {
    var started: bool
    var stopped: bool
    var connected: bool
    var bootstrap: Option<Option<nat>>
    var created: nat
    var attempts: set<nat>
    var live: set<nat>
    var timers: nat
    var faults: nat
    var badDeletes: nat

    function View(): Client
      reads this
    {
      Client(started, stopped, connected, bootstrap, created, attempts, live, timers, faults, badDeletes)
    }

    ghost predicate Valid()
      reads this
    {
      Inv(View())
    }

    constructor ()
      ensures Valid() && View() == INIT
    {
      started, stopped, connected, bootstrap, created := false, false, false, Some(None), 0;
      attempts, live, timers, faults, badDeletes := {}, {}, 0, 0, 0;
    }

    method Connect()
      modifies this
      ensures View() == DoConnect(old(View()))
    {
      if bootstrap.None? {
        faults := faults + 1;
      } else {
        bootstrap := Some(Some(created));
        attempts := attempts + {created};
        created := created + 1;
      }
    }

    method DropPipeline(pipeline: nat)
      modifies this
      ensures View() == DeletePipeline(old(View()), pipeline)
    {
      connected := false;
      live := live - {pipeline};
      if bootstrap.None? {
        faults := faults + 1;
      } else if bootstrap != Some(Some(pipeline)) {
        badDeletes := badDeletes + 1;
      } else if !stopped {
        timers := timers + 1;
      }
    }

    /** One connect is under way and nothing else. */
    method StartClient()
      requires Valid() && Legal(View(), Start)
      modifies this
      ensures Valid() && View() == Step(old(View()), Start)
      ensures Connecting(View()) && !connected && faults == 0
    {
      StepKeeps(View(), Start);
      started := true;
      Connect();
    }

    /** Before Stop, the pipeline the client takes charge of is the one whose connect succeeded. */
    method ConnectSucceeded(attempt: nat)
      requires Valid() && Legal(View(), Connected(attempt))
      modifies this
      ensures Valid() && View() == Step(old(View()), Connected(attempt))
      ensures if stopped then !connected && faults == 1 && |attempts| + timers == 0
              else connected && Online(View()) && live == {attempt}
    {
      StepKeeps(View(), Connected(attempt));
      attempts := attempts - {attempt};
      if bootstrap.None? || bootstrap.value.None? {
        faults := faults + 1;
      } else {
        live := live + {bootstrap.value.value};
        connected := true;
      }
    }

    /** Before Stop, one retry is scheduled. */
    method ConnectFailed(attempt: nat)
      requires Valid() && Legal(View(), Failed(attempt))
      modifies this
      ensures Valid() && View() == Step(old(View()), Failed(attempt))
      ensures if stopped then faults == 1 && |attempts| + timers == 0 else WaitingToRetry(View()) && faults == 0
    {
      StepKeeps(View(), Failed(attempt));
      attempts := attempts - {attempt};
      if bootstrap.None? {
        faults := faults + 1;
      } else {
        timers := timers + 1;
      }
    }

    /** The check that it is the bootstrap's own pipeline holds, and one reconnect is scheduled. */
    method PipelineDeleted(pipeline: nat)
      requires Valid() && Legal(View(), Deleted(pipeline))
      modifies this
      ensures Valid() && View() == Step(old(View()), Deleted(pipeline))
      ensures WaitingToRetry(View()) && !connected && badDeletes == 0 && faults == 0
    {
      StepKeeps(View(), Deleted(pipeline));
      DropPipeline(pipeline);
    }

    /** Before Stop, a new connect is under way and nothing else. */
    method ReconnectTimer()
      requires Valid() && Legal(View(), TimerFires)
      modifies this
      ensures Valid() && View() == Step(old(View()), TimerFires)
      ensures if stopped then faults == 1 && |attempts| + timers == 0
              else Connecting(View()) && attempts == {old(created)} && faults == 0
    {
      StepKeeps(View(), TimerFires);
      timers := timers - 1;
      Connect();
    }

    /** Whatever the client was doing, Stop meets no fault; it leaves nothing pending exactly when it was connected. */
    method StopClient()
      requires Valid() && Legal(View(), Stop)
      modifies this
      ensures Valid() && View() == Step(old(View()), Stop)
      ensures stopped && !connected && live == {} && faults == 0 && badDeletes == 0
      ensures |attempts| + timers == if old(connected) then 0 else 1
    {
      StepKeeps(View(), Stop);
      stopped := true;
      if connected {
        DropPipeline(bootstrap.value.value);
      }
      bootstrap := None;
    }
  }
}
