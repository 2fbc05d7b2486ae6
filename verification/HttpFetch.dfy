/**
 * One HTTP fetch on the event loop: the reference-counted client, its reply callback, and, for a synchronous fetch,
 * the fiber that waits for it (baselib/net/server/http_client.cc; baselib/net/fiber_data_manager.cc, lines 87-119).
 */
module HttpFetch {
  import opened Wrappers

  datatype ReplyCode = OK | INVALID | CONNECT_ERROR | HTTP_ERROR | NONE

  datatype Reply = Reply(result: ReplyCode, headers: Option<nat>, body: Option<seq<nat>>)

  const EMPTY_REPLY: Reply := Reply(NONE, None, None)

  /** Where the HTTP library stands with the request. */
  datatype Wire = Unused | Connecting | Open | Finished

  datatype Caller = Ready | Waiting | Returned

  /** A fiber baton: of a post and a timeout, the first to come settles it. */
  datatype Baton = NoWaiter | Waited | Posted | TimedOut

  datatype FiberState = kIdle | kTimeout | kPosted

  /** How a fetch is called: `sync` waits on a fiber, otherwise the caller passes a callback or none. */
  datatype Mode = Mode(sync: bool, hasCallback: bool)

  /** What the call finds: a fiber manager and a free record, a good url, a known host, a connect that fails at once. */
  datatype Input = Input(managerOk: bool, recordOk: bool, urlOk: bool, hostOk: bool, failsAtOnce: bool)

  /**
   * The client object; the counts say how often it was destroyed, wrongly released, and ran its callback, and
   * `handed` is the reply the callback was given.
   */
  datatype Client = Client(created: bool, refCount: int, reply: Reply, chain: Option<seq<nat>>,
                           destroyed: nat, badReleases: nat, callbacks: nat, handed: Option<Reply>)

  /**
   * What a synchronous caller holds: the reply it will return and its fiber record, both behind weak pointers in the
   * callback. `posts` counts the posts, `waited` says the fiber was made to wait, `ranInTime` that the callback had
   * run when the caller returned.
   */
  datatype Waiter = Waiter(data: Reply, dataHeld: bool, fiberHeld: bool, fiberState: FiberState, baton: Baton,
                           posts: nat, waited: bool, ranInTime: bool)

  datatype Fetch = Fetch(mode: Mode, caller: Caller, wire: Wire, client: Client, waiter: Waiter)

  function Init(mode: Mode): Fetch {
    Fetch(mode, Ready, Unused, Client(false, 0, EMPTY_REPLY, None, 0, 0, 0, None),
          Waiter(EMPTY_REPLY, true, false, kIdle, NoWaiter, 0, false, false))
  }

  // ----- the client -----

  function AddRef(c: Client): Client { c.(refCount := c.refCount + 1) }

  function ReleaseRef(c: Client): Client {
    if c.refCount <= 0 then c.(badReleases := c.badReleases + 1)
    else c.(refCount := c.refCount - 1, destroyed := if c.refCount == 1 then c.destroyed + 1 else c.destroyed)
  }

  /** A release is bad exactly when nobody held a reference, and the last one destroys the client. */
  lemma ReleaseExactly(c: Client)
    ensures ReleaseRef(c).badReleases > c.badReleases <==> c.refCount <= 0
    ensures ReleaseRef(c).destroyed > c.destroyed <==> c.refCount == 1
    ensures AddRef(c).refCount > 0 && c.refCount >= 0 ==> ReleaseRef(AddRef(c)).refCount == c.refCount
  {
  }

  function Post(w: Waiter): Waiter {
    w.(fiberState := kPosted, baton := if w.baton == TimedOut then TimedOut else Posted, posts := w.posts + 1)
  }

  /** Moves the reply to the caller and posts, unless the fetch was invalid. */
  function MoveReply(s: Fetch): Fetch {
    var moved := s.waiter.(data := s.client.reply);
    s.(client := s.client.(reply := Reply(s.client.reply.result, None, None)),
       waiter := if s.client.reply.result != INVALID then Post(moved) else moved)
  }

  /** The callback of a synchronous fetch moves the reply to the caller only while reply and fiber record both live. */
  function RunCallback(s: Fetch): Fetch {
    if !s.mode.sync && !s.mode.hasCallback then s
    else
      var s1 := s.(client := s.client.(callbacks := s.client.callbacks + 1, handed := Some(s.client.reply)));
      if s.mode.sync && s.waiter.dataHeld && s.waiter.fiberHeld then MoveReply(s1) else s1
  }

  function Drop(s: Fetch): Fetch { s.(client := ReleaseRef(s.client)) }

  function OnConnectError(s: Fetch): Fetch {
    Drop(RunCallback(s.(client := s.client.(reply := s.client.reply.(result := CONNECT_ERROR)))))
  }

  function OnBodyComplete(s: Fetch, body: Option<seq<nat>>): Fetch {
    Drop(RunCallback(if s.client.reply.result == NONE
                     then s.(client := s.client.(reply := s.client.reply.(result := OK, body := body))) else s))
  }

  /** Validate, then connect; a connect may fail before it returns. */
  function StartFetch(s: Fetch, i: Input): Fetch {
    if !i.urlOk || !i.hostOk then
      RunCallback(s.(client := s.client.(reply := s.client.reply.(result := INVALID))))
    else
      var s1 := s.(client := AddRef(s.client));
      if i.failsAtOnce then OnConnectError(s1.(wire := Finished)) else s1.(wire := Connecting)
  }

  // ----- the callers -----

  /** The tail of both callers: drop the client; a synchronous one also lets go of its fiber record. */
  function Return(s: Fetch): Fetch {
    var s1 := Drop(s);
    s1.(caller := Returned, waiter := s1.waiter.(fiberHeld := false, ranInTime := s1.client.callbacks > 0))
  }

  function Begin(s: Fetch, i: Input): Fetch {
    var s1 := s.(client := AddRef(s.client.(created := true)));
    if !s.mode.sync then Return(StartFetch(s1, i))
    else if !i.managerOk || !i.recordOk then s.(caller := Returned)
    else
      var s2 := StartFetch(s1.(waiter := s1.waiter.(fiberHeld := true)), i);
      if s2.waiter.data.result == INVALID then Return(s2) else StartWait(s2)
  }

  function StartWait(s: Fetch): Fetch {
    s.(caller := Waiting,
       waiter := s.waiter.(waited := true, baton := if s.waiter.baton == NoWaiter then Waited else s.waiter.baton))
  }

  /** The fiber runs again once its baton is settled. */
  function Resume(s: Fetch): Fetch {
    Return(if s.waiter.baton == Posted then s else s.(waiter := s.waiter.(fiberState := kTimeout)))
  }

  // ----- events -----

  datatype Event =
    | Call(input: Input)
    | ConnectSuccess
    | ConnectError
    | Headers(message: nat)
    | Body(bytes: seq<nat>)
    | Error
    | Detach
    | Timeout
    | FiberResumes
    | DropReply

  /**
   * The HTTP library reports a failed connect, or a successful one followed by any headers, body and errors and one
   * detach. A timeout comes only to a fiber that waits, which resumes once its baton is settled.
   */
  predicate Legal(s: Fetch, e: Event) {
    match e
    case Call(_) => s.caller == Ready
    case ConnectSuccess => s.wire == Connecting
    case ConnectError => s.wire == Connecting
    case Headers(_) => s.wire == Open
    case Body(_) => s.wire == Open
    case Error => s.wire == Open
    case Detach => s.wire == Open
    case Timeout => s.caller == Waiting && s.waiter.baton == Waited
    case FiberResumes => s.caller == Waiting && (s.waiter.baton == Posted || s.waiter.baton == TimedOut)
    case DropReply => s.caller == Returned
  }

  function Step(s: Fetch, e: Event): Fetch {
    match e
    case Call(i) => Begin(s, i)
    case ConnectSuccess => s.(wire := Open)
    case ConnectError => OnConnectError(s.(wire := Finished))
    case Headers(message) => s.(client := s.client.(reply := s.client.reply.(headers := Some(message))))
    case Body(bytes) =>
      s.(client := s.client.(chain := Some(if s.client.chain.None? then bytes else s.client.chain.value + bytes)))
    case Error => s.(client := s.client.(reply := s.client.reply.(result := HTTP_ERROR)))
    case Detach => OnBodyComplete(s.(wire := Finished, client := s.client.(chain := None)), s.client.chain)
    case Timeout => s.(waiter := s.waiter.(baton := TimedOut))
    case FiberResumes => Resume(s)
    case DropReply => s.(waiter := s.waiter.(dataHeld := false))
  }

  ghost predicate Runs(s: Fetch, es: seq<Event>, s': Fetch)
    decreases |es|
  {
    if es == [] then s' == s else Legal(s, es[0]) && Runs(Step(s, es[0]), es[1..], s')
  }

  // ----- the invariant -----

  ghost predicate InFlight(s: Fetch) { s.wire == Connecting || s.wire == Open }

  /** The counts of the client: who still refers to it, and that it ran its callback and died when it should. */
  ghost predicate ClientOk(s: Fetch) {
    var c := s.client;
    && c.badReleases == 0
    && c.refCount == (if s.caller == Waiting then 1 else 0) + (if InFlight(s) then 1 else 0)
    && c.destroyed == (if c.created && c.refCount == 0 then 1 else 0)
    && c.callbacks == (if c.created && !InFlight(s) && (s.mode.sync || s.mode.hasCallback) then 1 else 0)
    && (c.handed.Some? <==> c.callbacks > 0)
    && (!c.created ==> s.wire == Unused && s.caller != Waiting)
    && (InFlight(s) ==> c.reply.body == None && (c.reply.result == NONE || c.reply.result == HTTP_ERROR))
    && (s.wire == Connecting ==> c.reply == EMPTY_REPLY)
  }

  ghost predicate ReplyOk(r: Reply) {
    && (r.body.Some? ==> r.result == OK)
    && (r.headers.Some? ==> r.result == OK || r.result == HTTP_ERROR)
  }

  ghost predicate WaiterOk(s: Fetch) {
    var w := s.waiter;
    && ReplyOk(w.data)
    && (s.caller == Waiting ==> s.mode.sync && w.dataHeld && w.waited)
    && (w.fiberHeld <==> s.caller == Waiting)
    && (!s.mode.sync ==> w.data == EMPTY_REPLY) && (w.ranInTime ==> s.client.callbacks > 0)
    && (s.mode.sync && s.caller == Waiting ==> (w.data.result != NONE <==> s.client.callbacks > 0))
    && (s.mode.sync && s.caller == Returned ==> (w.data.result != NONE <==> w.ranInTime))
    && (w.waited ==> w.data.result != INVALID)
    && w.posts == (if w.data.result == NONE || w.data.result == INVALID then 0 else 1)
    && (w.waited ==> w.baton != NoWaiter)
    && (w.baton == Posted ==> w.posts == 1 && w.fiberState == kPosted)
    && (w.baton == Waited ==> w.posts == 0 && s.caller == Waiting)
    && (s.caller == Returned && w.waited ==> (w.fiberState == kTimeout <==> w.baton == TimedOut))
  }

  ghost predicate Inv(s: Fetch) {
    ClientOk(s) && WaiterOk(s) && (s.caller == Ready ==> s == Init(s.mode))
  }

  /** What StartFetch leaves behind, for a caller that has taken its reference. */
  lemma StartFetchEffect(s: Fetch, i: Input)
    requires s.client.refCount == 1 && s.wire == Unused && s.client.reply == EMPTY_REPLY
    ensures var s' := StartFetch(s, i);
      && s'.mode == s.mode && s'.caller == s.caller
      && (InFlight(s') ==> s' == s.(wire := Connecting, client := AddRef(s.client)))
      && (!InFlight(s') ==>
            && s'.client.refCount == 1 && s'.client.destroyed == s.client.destroyed
            && s'.client.badReleases == s.client.badReleases && s'.client.created == s.client.created
            && s'.client.callbacks == s.client.callbacks + (if s.mode.sync || s.mode.hasCallback then 1 else 0)
            && (s.client.handed == None ==> (s'.client.handed.Some? <==> s.mode.sync || s.mode.hasCallback)))
      && (!InFlight(s') && !(s.mode.sync && s.waiter.dataHeld && s.waiter.fiberHeld) ==> s'.waiter == s.waiter)
      && (!InFlight(s') && s.mode.sync && s.waiter.dataHeld && s.waiter.fiberHeld ==>
            || s'.waiter == s.waiter.(data := Reply(INVALID, None, None))
            || s'.waiter == Post(s.waiter.(data := Reply(CONNECT_ERROR, None, None))))
  {
  }

  lemma AsyncCallKeeps(s: Fetch, i: Input)
    requires !s.mode.sync && s == Init(s.mode)
    ensures Inv(Begin(s, i)) && Begin(s, i).mode == s.mode
  {
    var s1 := s.(client := AddRef(s.client.(created := true)));
    StartFetchEffect(s1, i);
    var s2 := StartFetch(s1, i);
    assert Begin(s, i) == Return(s2) && s2.waiter == s.waiter;
  }

  ghost predicate SettledAtOnce(s: Fetch) {
    && s.mode.sync && s.caller == Ready && !InFlight(s) && s.client.created && s.client.refCount == 1
    && s.client.destroyed == 0 && s.client.badReleases == 0 && s.client.callbacks == 1 && s.client.handed.Some?
  }

  lemma InvalidReturns(s: Fetch)
    requires SettledAtOnce(s)
    requires s.waiter == Init(s.mode).waiter.(fiberHeld := true, data := Reply(INVALID, None, None))
    ensures Inv(Return(s))
  {
  }

  lemma FailedWaits(s: Fetch)
    requires SettledAtOnce(s)
    requires s.waiter == Post(Init(s.mode).waiter.(fiberHeld := true, data := Reply(CONNECT_ERROR, None, None)))
    ensures Inv(StartWait(s))
  {
  }

  lemma ConnectingWaits(s: Fetch)
    requires s.mode.sync && s.caller == Ready && s.wire == Connecting
    requires s.client == AddRef(AddRef(Init(s.mode).client.(created := true)))
    requires s.waiter == Init(s.mode).waiter.(fiberHeld := true)
    ensures Inv(StartWait(s))
  {
  }

  lemma SyncCallKeeps(s: Fetch, i: Input)
    requires s.mode.sync && s == Init(s.mode) && i.managerOk && i.recordOk
    ensures Inv(Begin(s, i)) && Begin(s, i).mode == s.mode
  {
    var s1 := s.(client := AddRef(s.client.(created := true)), waiter := s.waiter.(fiberHeld := true));
    StartFetchEffect(s1, i);
    var s2 := StartFetch(s1, i);
    if InFlight(s2) {
      ConnectingWaits(s2);
    } else if s2.waiter.data.result == INVALID {
      InvalidReturns(s2);
    } else {
      FailedWaits(s2);
    }
  }

  lemma CallKeeps(s: Fetch, i: Input)
    requires Inv(s) && s.caller == Ready
    ensures Inv(Begin(s, i)) && Begin(s, i).mode == s.mode
  {
    if !s.mode.sync {
      AsyncCallKeeps(s, i);
    } else if i.managerOk && i.recordOk {
      SyncCallKeeps(s, i);
    }
  }

  lemma FinishKeeps(s: Fetch, e: Event)
    requires Inv(s) && Legal(s, e) && (e.ConnectError? || e.Detach?)
    ensures Inv(Step(s, e))
  {
  }

  lemma ResumeKeeps(s: Fetch)
    requires Inv(s) && Legal(s, FiberResumes)
    ensures Inv(Resume(s))
  {
  }

  lemma StepKeeps(s: Fetch, e: Event)
    requires Inv(s) && Legal(s, e)
    ensures Inv(Step(s, e)) && Step(s, e).mode == s.mode
  {
    match e
    case Call(i) => CallKeeps(s, i);
    case ConnectError => FinishKeeps(s, e);
    case Detach => FinishKeeps(s, e);
    case FiberResumes => ResumeKeeps(s);
    case _ =>
  }

  lemma {:induction false} RunKeeps(s: Fetch, es: seq<Event>, s': Fetch)
    requires Inv(s) && Runs(s, es, s')
    ensures Inv(s') && s'.mode == s.mode
    decreases |es|
  {
    if es != [] {
      StepKeeps(s, es[0]);
      RunKeeps(Step(s, es[0]), es[1..], s');
    }
  }

  // ----- whole runs -----

  /** The fetch is over: the caller has returned and the HTTP library has nothing more to report. */
  ghost predicate Over(s: Fetch) { s.caller == Returned && !InFlight(s) }

  /**
   * In every interleaving the client runs its callback at most once and is destroyed at most once, not while the
   * library may still report to it and not before the callback and the caller's release; once the fetch is over both
   * have happened. ReleaseRef never finds a count that is not positive.
   */
  lemma CalledBackAndDestroyedOnce(mode: Mode, es: seq<Event>, s: Fetch)
    requires Runs(Init(mode), es, s)
    ensures s.client.badReleases == 0 && s.client.callbacks <= 1 && s.client.destroyed <= 1
    ensures s.client.refCount == (if s.caller == Waiting then 1 else 0) + (if InFlight(s) then 1 else 0)
    ensures s.client.destroyed == 1 <==> s.client.created && Over(s)
    ensures s.client.callbacks == 1 <==> s.client.created && !InFlight(s) && (mode.sync || mode.hasCallback)
  {
    RunKeeps(Init(mode), es, s);
  }

  lemma {:induction false} ReturnedStays(s: Fetch, es: seq<Event>, s': Fetch)
    requires Inv(s) && s.caller == Returned && Runs(s, es, s')
    ensures s'.caller == Returned && s'.waiter == s.waiter.(dataHeld := s'.waiter.dataHeld)
    decreases |es|
  {
    if es != [] {
      StepKeeps(s, es[0]);
      ReturnedStays(Step(s, es[0]), es[1..], s');
    }
  }

  /** Once the caller has its reply, no later event changes it or touches the fiber record. */
  lemma ReplyFrozen(mode: Mode, es: seq<Event>, s: Fetch, later: seq<Event>, s': Fetch)
    requires Runs(Init(mode), es, s) && s.caller == Returned && Runs(s, later, s')
    ensures s'.waiter.data == s.waiter.data && s'.waiter.posts == s.waiter.posts
    ensures s'.waiter.fiberState == s.waiter.fiberState
  {
    RunKeeps(Init(mode), es, s);
    ReturnedStays(s, later, s');
  }

  /**
   * What a synchronous fetch returns: a result exactly when the callback ran before the return, a body only with OK,
   * at most one post, no wait on an invalid fetch, and a timeout exactly when the timer beat the post.
   */
  lemma SyncResult(mode: Mode, es: seq<Event>, s: Fetch)
    requires mode.sync && Runs(Init(mode), es, s) && s.caller == Returned
    ensures s.waiter.data.result != NONE <==> s.waiter.ranInTime
    ensures s.waiter.data.body.Some? ==> s.waiter.data.result == OK
    ensures s.waiter.posts <= 1 && (s.waiter.waited ==> s.waiter.data.result != INVALID)
    ensures s.waiter.waited ==> (s.waiter.fiberState == kTimeout <==> Timeout in es)
    ensures s.waiter.waited && s.waiter.data.result == NONE ==> s.waiter.fiberState == kTimeout
  {
    RunKeeps(Init(mode), es, s);
    RunTimesOut(Init(mode), es, s);
  }

  /** Only the timer times a baton out, and nothing undoes it. */
  lemma StepTimesOut(s: Fetch, e: Event)
    requires Inv(s) && Legal(s, e)
    ensures Step(s, e).waiter.baton == TimedOut <==> e == Timeout || s.waiter.baton == TimedOut
  {
    match e
    case Call(i) => CallTimesOut(s, i);
    case _ =>
  }

  lemma CallTimesOut(s: Fetch, i: Input)
    requires Inv(s) && s.caller == Ready
    ensures Begin(s, i).waiter.baton != TimedOut
  {
    var s1 := s.(client := AddRef(s.client.(created := true)));
    StartFetchEffect(if s.mode.sync then s1.(waiter := s1.waiter.(fiberHeld := true)) else s1, i);
  }

  lemma {:induction false} RunTimesOut(s: Fetch, es: seq<Event>, s': Fetch)
    requires Inv(s) && Runs(s, es, s')
    ensures s'.waiter.baton == TimedOut <==> Timeout in es || s.waiter.baton == TimedOut
    decreases |es|
  {
    if es != [] {
      StepKeeps(s, es[0]);
      StepTimesOut(s, es[0]);
      RunTimesOut(Step(s, es[0]), es[1..], s');
    }
  }

  lemma RunsAfter(s: Fetch, e: Event, es: seq<Event>, s': Fetch)
    requires Legal(s, e) && Runs(Step(s, e), es, s')
    ensures Runs(s, [e] + es, s')
  {
    assert ([e] + es)[1..] == es;
  }

  /** A started fetch can always be brought to its end, whatever has happened so far. */
  lemma CanFinish(mode: Mode, es: seq<Event>, s: Fetch)
    requires Runs(Init(mode), es, s) && s.caller != Ready
    ensures exists more, s' :: Runs(s, more, s') && Over(s')
  {
    RunKeeps(Init(mode), es, s);
    if InFlight(s) {
      var e := FlightEnds(s);
      var more, s' := SettledFinishes(Step(s, e));
      RunsAfter(s, e, more, s');
    } else {
      var more, s' := SettledFinishes(s);
    }
  }

  lemma FlightEnds(s: Fetch) returns (e: Event)
    requires Inv(s) && InFlight(s)
    ensures Legal(s, e) && Inv(Step(s, e)) && !InFlight(Step(s, e)) && Step(s, e).caller == s.caller
  {
    e := if s.wire == Connecting then ConnectError else Detach;
    FinishKeeps(s, e);
  }

  lemma SettledFinishes(s: Fetch) returns (more: seq<Event>, s': Fetch)
    requires Inv(s) && s.caller != Ready && !InFlight(s)
    ensures Runs(s, more, s') && Over(s')
  {
    if s.caller == Returned {
      more, s' := [], s;
    } else {
      assert s.waiter.baton == Posted || s.waiter.baton == TimedOut;
      more, s' := [FiberResumes], Resume(s);
      RunsAfter(s, FiberResumes, [], s');
    }
  }

  // ----- the reply is what arrived -----

  /** What has been asked for and what the HTTP library has reported so far. */
  datatype Seen = Seen(invalid: bool, refused: bool, headers: Option<nat>, chain: Option<seq<nat>>, errored: bool,
                       detached: bool)

  const NOTHING: Seen := Seen(false, false, None, None, false, false)

  function See(h: Seen, e: Event): Seen {
    match e
    case Call(i) => h.(invalid := !i.urlOk || !i.hostOk, refused := i.urlOk && i.hostOk && i.failsAtOnce)
    case ConnectError => h.(refused := true)
    case Headers(message) => h.(headers := Some(message))
    case Body(bytes) => h.(chain := Some(if h.chain.None? then bytes else h.chain.value + bytes))
    case Error => h.(errored := true)
    case Detach => h.(detached := true)
    case _ => h
  }

  function SeeAll(h: Seen, es: seq<Event>): Seen
    decreases |es|
  {
    if es == [] then h else SeeAll(See(h, es[0]), es[1..])
  }

  /** The reply a finished fetch amounts to: an error spoils the body but leaves the headers. */
  function Expected(h: Seen): Reply {
    if h.invalid then Reply(INVALID, None, None)
    else if h.refused then Reply(CONNECT_ERROR, None, None)
    else if h.errored then Reply(HTTP_ERROR, h.headers, None)
    else Reply(OK, h.headers, h.chain)
  }

  /** The fetch has come to its end. */
  predicate Settled(h: Seen) { h.invalid || h.refused || h.detached }

  ghost predicate WireTracks(s: Fetch, h: Seen) {
    && (s.caller == Ready ==> s == Init(s.mode) && h == NOTHING) && (h.detached ==> !h.invalid && !h.refused)
    && (s.wire == Connecting ==> h == NOTHING && s.client.chain == None)
    && (s.wire == Open ==>
          && h == Seen(false, false, h.headers, s.client.chain, h.errored, false)
          && s.client.reply == Reply(if h.errored then HTTP_ERROR else NONE, h.headers, None))
  }

  ghost predicate Tracks(s: Fetch, h: Seen) {
    && WireTracks(s, h)
    && (s.waiter.data.result != NONE ==> Settled(h) && s.waiter.data == Expected(h))
    && (s.client.handed.Some? ==> Settled(h) && s.client.handed.value == Expected(h))
  }

  lemma StartFetchTracks(s: Fetch, i: Input)
    requires s.client.refCount == 1 && s.wire == Unused && s.client.reply == EMPTY_REPLY
    requires s.waiter.data == EMPTY_REPLY && s.client.handed == None && s.client.chain == None
    ensures var s', h := StartFetch(s, i), See(NOTHING, Call(i));
      && (s'.wire == Connecting ==> h == NOTHING && s'.client.chain == None) && s'.wire != Open
      && (s'.waiter.data.result != NONE ==> Settled(h) && s'.waiter.data == Expected(h))
      && (s'.client.handed.Some? ==> Settled(h) && s'.client.handed.value == Expected(h))
  {
  }

  lemma CallTracks(s: Fetch, i: Input)
    requires Inv(s) && s.caller == Ready
    ensures Tracks(Begin(s, i), See(NOTHING, Call(i)))
  {
    var s1 := s.(client := AddRef(s.client.(created := true)));
    var s2 := if s.mode.sync then s1.(waiter := s1.waiter.(fiberHeld := true)) else s1;
    StartFetchTracks(s2, i);
    var s3 := StartFetch(s2, i);
    assert s3.caller == Ready;
  }

  lemma StepTracks(s: Fetch, h: Seen, e: Event)
    requires Inv(s) && Tracks(s, h) && Legal(s, e)
    ensures Tracks(Step(s, e), See(h, e))
  {
    match e
    case Call(i) => CallTracks(s, i);
    case _ =>
  }

  lemma {:induction false} RunTracks(s: Fetch, h: Seen, es: seq<Event>, s': Fetch)
    requires Inv(s) && Tracks(s, h) && Runs(s, es, s')
    ensures Tracks(s', SeeAll(h, es))
    decreases |es|
  {
    if es != [] {
      StepKeeps(s, es[0]);
      StepTracks(s, h, es[0]);
      RunTracks(Step(s, es[0]), See(h, es[0]), es[1..], s');
    }
  }

  /**
   * A reply returned from a finished exchange is exactly what the library reported. The header file promises headers
   * only with result 0; they do come with HTTP_ERROR, exactly when both headers and an error were reported.
   */
  lemma ReplyIsWhatArrived(mode: Mode, es: seq<Event>, s: Fetch)
    requires mode.sync && Runs(Init(mode), es, s) && s.caller == Returned && s.waiter.ranInTime
    ensures var h := SeeAll(NOTHING, es);
      && s.waiter.data == Expected(h)
      && ((s.waiter.data.headers.Some? && s.waiter.data.result != OK) <==> (h.detached && h.errored && h.headers.Some?))
  {
    RunKeeps(Init(mode), es, s);
    RunTracks(Init(mode), NOTHING, es, s);
  }

  /** Headers without OK do come: the reply to an exchange that fails after its headers. */
  lemma HeadersWithError(message: nat) returns (s: Fetch)
    ensures exists es :: Runs(Init(Mode(true, true)), es, s)
    ensures s.caller == Returned && s.waiter.data == Reply(HTTP_ERROR, Some(message), None)
  {
    var s0 := Init(Mode(true, true));
    var i := Input(true, true, true, true, false);
    var s1 := Step(s0, Call(i));
    var s2 := Step(s1, ConnectSuccess);
    var es;
    es, s := FailedAfterHeaders(s2, message);
    RunsAfter(s1, ConnectSuccess, es, s);
    es := [ConnectSuccess] + es;
    RunsAfter(s0, Call(i), es, s);
  }

  lemma FailedAfterHeaders(s: Fetch, message: nat) returns (es: seq<Event>, s': Fetch)
    requires s.mode.sync && s.wire == Open && s.caller == Waiting && s.waiter.baton == Waited
    requires s.client.reply == EMPTY_REPLY && s.waiter.dataHeld && s.waiter.fiberHeld
    ensures Runs(s, es, s') && s'.caller == Returned && s'.waiter.data == Reply(HTTP_ERROR, Some(message), None)
  {
    var s1 := Step(s, Headers(message));
    var s2 := Step(s1, Error);
    var s3 := Step(s2, Detach);
    s' := Step(s3, FiberResumes);
    RunsAfter(s3, FiberResumes, [], s');
    es := [FiberResumes] + [];
    RunsAfter(s2, Detach, es, s');
    es := [Detach] + es;
    RunsAfter(s1, Error, es, s');
    es := [Error] + es;
    RunsAfter(s, Headers(message), es, s');
    es := [Headers(message)] + es;
  }

  /**
   * The callback, of either kind of fetch, is given exactly what the call and the library's reports amount to: INVALID
   * for an invalid call, CONNECT_ERROR for a connect that failed, and otherwise what arrived.
   */
  lemma CallbackGetsReply(mode: Mode, es: seq<Event>, s: Fetch)
    requires Runs(Init(mode), es, s)
    ensures s.client.handed.Some? <==> s.client.created && !InFlight(s) && (mode.sync || mode.hasCallback)
    ensures s.client.handed.Some? ==> s.client.handed.value == Expected(SeeAll(NOTHING, es))
  {
    RunKeeps(Init(mode), es, s);
    RunTracks(Init(mode), NOTHING, es, s);
  }

  /**
   * A timeout does not mean an empty reply: the exchange may still end between the timeout and the fiber's turn, and
   * the caller then returns whatever headers and body arrived.
   */
  lemma LateReplyAfterTimeout(message: nat, bytes: seq<nat>) returns (s: Fetch)
    ensures exists es :: Runs(Init(Mode(true, true)), es, s)
    ensures s.caller == Returned && s.waiter.fiberState == kTimeout
    ensures s.waiter.data == Reply(OK, Some(message), Some(bytes))
  {
    var s0 := Init(Mode(true, true));
    var i := Input(true, true, true, true, false);
    var s1 := Step(s0, Call(i));
    var s2 := Step(s1, ConnectSuccess);
    var s3 := Step(s2, Headers(message));
    var s4 := Step(s3, Body(bytes));
    var es;
    es, s := LateDetach(s4);
    RunsAfter(s3, Body(bytes), es, s);
    es := [Body(bytes)] + es;
    RunsAfter(s2, Headers(message), es, s);
    es := [Headers(message)] + es;
    RunsAfter(s1, ConnectSuccess, es, s);
    es := [ConnectSuccess] + es;
    RunsAfter(s0, Call(i), es, s);
  }

  lemma LateDetach(s: Fetch) returns (es: seq<Event>, s': Fetch)
    requires s.mode.sync && s.wire == Open && Legal(s, Timeout) && s.client.reply.result == NONE
    requires s.waiter.dataHeld && s.waiter.fiberHeld
    ensures Runs(s, es, s') && s'.caller == Returned && s'.waiter.fiberState == kTimeout
    ensures s'.waiter.data == Reply(OK, s.client.reply.headers, s.client.chain)
  {
    var s1 := Step(s, Timeout);
    var s2 := Step(s1, Detach);
    s' := Step(s2, FiberResumes);
    RunsAfter(s2, FiberResumes, [], s');
    RunsAfter(s1, Detach, [FiberResumes], s');
    RunsAfter(s, Timeout, [Detach] + [FiberResumes], s');
    es := [Timeout] + ([Detach] + [FiberResumes]);
  }

  // ----- what one event means to the caller -----

  /** The call gets as far as a fetch: a synchronous one found its manager and a record. */
  predicate Fetches(mode: Mode, i: Input) { !mode.sync || (i.managerOk && i.recordOk) }

  predicate ValidTarget(i: Input) { i.urlOk && i.hostOk }

  predicate Answers(mode: Mode) { mode.sync || mode.hasCallback }

  /** The call waits exactly on a valid synchronous fetch; a fetch that is settled at once has called back once. */
  lemma CallEffect(s: Fetch, i: Input)
    requires Inv(s) && s.caller == Ready
    ensures var s' := Begin(s, i);
      && s'.client.created == Fetches(s.mode, i)
      && (InFlight(s') <==> Fetches(s.mode, i) && ValidTarget(i) && !i.failsAtOnce)
      && (s'.caller == Waiting <==> s.mode.sync && Fetches(s.mode, i) && ValidTarget(i))
      && (s'.caller == Waiting || s'.caller == Returned)
      && (s'.waiter.data.result == INVALID <==> s.mode.sync && Fetches(s.mode, i) && !ValidTarget(i))
  {
    var s1 := s.(client := AddRef(s.client.(created := true)));
    StartFetchEffect(if s.mode.sync then s1.(waiter := s1.waiter.(fiberHeld := true)) else s1, i);
  }

  function FinalReply(s: Fetch, e: Event): Reply {
    if e.ConnectError? then Reply(CONNECT_ERROR, None, None)
    else if s.client.reply.result == HTTP_ERROR then Reply(HTTP_ERROR, s.client.reply.headers, None)
    else Reply(OK, s.client.reply.headers, s.client.chain)
  }

  /** The end of the exchange hands the reply to a fiber that still waits, posting once, and to nobody else. */
  lemma FinishEffect(s: Fetch, e: Event)
    requires Inv(s) && Legal(s, e) && (e.ConnectError? || e.Detach?)
    ensures var s' := Step(s, e);
      && s'.caller == s.caller && !InFlight(s') && s'.client.created && s'.mode == s.mode
      && (s.caller == Returned ==> s'.waiter == s.waiter)
      && (Answers(s.mode) ==> s'.client.handed == Some(FinalReply(s, e)))
      && (s.caller == Waiting ==>
            && s'.waiter.posts == 1 && s'.waiter.fiberState == kPosted
            && s'.waiter.baton == (if s.waiter.baton == TimedOut then TimedOut else Posted)
            && s'.waiter.data == FinalReply(s, e))
  {
  }

  // ----- the objects -----

  /** A fetch in progress: the client, and for a synchronous caller its reply and fiber record. */
  class FetchCall {
    const mode: Mode
    var caller: Caller
    var wire: Wire
    var created: bool
    var refCount: int
    var reply: Reply
    var chain: Option<seq<nat>>
    var destroyed: nat
    var badReleases: nat
    var callbacks: nat
    var handed: Option<Reply>
    var data: Reply
    var dataHeld: bool
    var fiberHeld: bool
    var fiberState: FiberState
    var baton: Baton
    var posts: nat
    var waited: bool
    var ranInTime: bool

    function TheClient(): Client
      reads this
    {
      Client(created, refCount, reply, chain, destroyed, badReleases, callbacks, handed)
    }

    function TheWaiter(): Waiter
      reads this
    {
      Waiter(data, dataHeld, fiberHeld, fiberState, baton, posts, waited, ranInTime)
    }

    function View(): Fetch
      reads this
    {
      Fetch(mode, caller, wire, TheClient(), TheWaiter())
    }

    ghost predicate Valid()
      reads this
    {
      Inv(View())
    }

    constructor (mode: Mode)
      ensures Valid() && View() == Init(mode)
    {
      this.mode, caller, wire := mode, Ready, Unused;
      created, refCount, reply, chain := false, 0, EMPTY_REPLY, None;
      destroyed, badReleases, callbacks, handed := 0, 0, 0, None;
      data, dataHeld, fiberHeld, fiberState, baton := EMPTY_REPLY, true, false, kIdle, NoWaiter;
      posts, waited, ranInTime := 0, false, false;
    }

    // The parts, from whatever state.

    method DoAddRef()
      modifies this`refCount
      ensures TheClient() == AddRef(old(TheClient()))
    {
      refCount := refCount + 1;
    }

    method DoReleaseRef()
      modifies this`refCount, this`destroyed, this`badReleases
      ensures TheClient() == ReleaseRef(old(TheClient()))
    {
      if refCount <= 0 {
        badReleases := badReleases + 1;
      } else {
        refCount := refCount - 1;
        if refCount == 0 { destroyed := destroyed + 1; }
      }
    }

    method DoPost()
      modifies this`fiberState, this`baton, this`posts
      ensures TheWaiter() == Post(old(TheWaiter()))
    {
      fiberState := kPosted;
      if baton != TimedOut { baton := Posted; }
      posts := posts + 1;
    }

    method DoMoveReply()
      modifies this`data, this`reply, this`fiberState, this`baton, this`posts
      ensures View() == MoveReply(old(View()))
    {
      data := reply;
      reply := Reply(reply.result, None, None);
      if reply.result != INVALID { DoPost(); }
    }

    method DoRunCallback()
      modifies this`callbacks, this`handed, this`data, this`reply, this`fiberState, this`baton, this`posts
      ensures View() == RunCallback(old(View()))
    {
      if mode.sync {
        callbacks, handed := callbacks + 1, Some(reply);
        if dataHeld && fiberHeld { DoMoveReply(); }
      } else if mode.hasCallback {
        callbacks, handed := callbacks + 1, Some(reply);
      }
    }

    method DoOnConnectError()
      modifies this
      ensures View() == OnConnectError(old(View()))
    {
      reply := reply.(result := CONNECT_ERROR);
      DoRunCallback();
      DoReleaseRef();
    }

    method DoOnBodyComplete(body: Option<seq<nat>>)
      modifies this
      ensures View() == OnBodyComplete(old(View()), body)
    {
      if reply.result == NONE { reply := reply.(result := OK, body := body); }
      DoRunCallback();
      DoReleaseRef();
    }

    method DoFetch(i: Input)
      modifies this
      ensures View() == StartFetch(old(View()), i)
    {
      if !i.urlOk || !i.hostOk {
        reply := reply.(result := INVALID);
        DoRunCallback();
        return;
      }
      DoAddRef();
      if i.failsAtOnce {
        wire := Finished;
        DoOnConnectError();
      } else {
        wire := Connecting;
      }
    }

    method DoStartWait()
      modifies this`caller, this`waited, this`baton
      ensures View() == StartWait(old(View()))
    {
      caller, waited := Waiting, true;
      if baton == NoWaiter { baton := Waited; }
    }

    method DoReturn()
      modifies this
      ensures View() == Return(old(View()))
    {
      DoReleaseRef();
      caller, fiberHeld, ranInTime := Returned, false, callbacks > 0;
    }

    method DoSyncFetch(i: Input)
      requires mode.sync
      modifies this
      ensures View() == Begin(old(View()), i)
    {
      if !i.managerOk || !i.recordOk {
        caller := Returned;
        return;
      }
      created := true;
      fiberHeld := true;
      DoAddRef();
      DoFetch(i);
      DoWaitOrReturn();
    }

    method DoWaitOrReturn()
      modifies this
      ensures View() == var s := old(View()); if s.waiter.data.result == INVALID then Return(s) else StartWait(s)
    {
      if data.result != INVALID {
        DoStartWait();
      } else {
        DoReturn();
      }
    }

    method DoAsyncFetch(i: Input)
      requires !mode.sync
      modifies this
      ensures View() == Begin(old(View()), i)
    {
      created := true;
      DoAddRef();
      DoFetch(i);
      DoReturn();
    }

    // The events. No release ever finds the count at zero, and the client lives exactly as long as it is needed.

    ghost predicate Sound()
      reads this
    {
      && badReleases == 0 && destroyed == (if created && Over(View()) then 1 else 0)
      && callbacks == (if created && !InFlight(View()) && Answers(mode) then 1 else 0)
    }

    /**
     * The call of either kind, up to its return or to the point where the fiber waits. It waits exactly when it is
     * synchronous and valid; what is settled at once has called back once by then.
     */
    method RunFetch(i: Input)
      requires Valid() && Legal(View(), Call(i))
      modifies this
      ensures Valid() && Sound() && View() == Step(old(View()), Call(i))
      ensures created == Fetches(mode, i) && (caller == Waiting || caller == Returned)
      ensures caller == Waiting <==> mode.sync && Fetches(mode, i) && ValidTarget(i)
      ensures InFlight(View()) <==> Fetches(mode, i) && ValidTarget(i) && !i.failsAtOnce
      ensures data.result == INVALID <==> mode.sync && Fetches(mode, i) && !ValidTarget(i)
    {
      CallKeeps(View(), i);
      CallEffect(View(), i);
      if mode.sync {
        DoSyncFetch(i);
      } else {
        DoAsyncFetch(i);
      }
    }

    /** Hands CONNECT_ERROR to a fiber that waits and posts it once; a caller that has returned sees nothing. */
    method HandleConnectError()
      requires Valid() && Legal(View(), ConnectError)
      modifies this
      ensures Valid() && Sound() && View() == Step(old(View()), ConnectError)
      ensures old(caller) == Waiting ==>
        && data == Reply(CONNECT_ERROR, None, None) && posts == 1 && fiberState == kPosted
        && baton == if old(baton) == TimedOut then TimedOut else Posted
      ensures Answers(mode) ==> handed == Some(Reply(CONNECT_ERROR, None, None))
      ensures old(caller) == Returned ==> TheWaiter() == old(TheWaiter())
    {
      FinishKeeps(View(), ConnectError);
      FinishEffect(View(), ConnectError);
      wire := Finished;
      DoOnConnectError();
    }

    /** Hands what has arrived to a fiber that waits: all of it, or after an error the headers only. */
    method HandleBodyComplete()
      requires Valid() && Legal(View(), Detach)
      modifies this
      ensures Valid() && Sound() && View() == Step(old(View()), Detach)
      ensures old(caller) == Waiting ==>
        && posts == 1 && fiberState == kPosted && Some(data) == handed
        && baton == if old(baton) == TimedOut then TimedOut else Posted
      ensures Answers(mode) ==>
        handed == Some(if old(reply.result) == HTTP_ERROR then Reply(HTTP_ERROR, old(reply.headers), None)
                       else Reply(OK, old(reply.headers), old(chain)))
      ensures old(caller) == Returned ==> TheWaiter() == old(TheWaiter())
    {
      FinishKeeps(View(), Detach);
      FinishEffect(View(), Detach);
      var body := chain;
      wire, chain := Finished, None;
      DoOnBodyComplete(body);
    }

    /** Headers, body and errors reach a live client and are only kept: nobody is called back or sees a change. */
    method HandleHeaders(message: nat)
      requires Valid() && Legal(View(), Headers(message))
      modifies this`reply
      ensures Valid() && Sound() && View() == Step(old(View()), Headers(message))
      ensures callbacks == 0 && destroyed == 0 && refCount > 0 && TheWaiter() == old(TheWaiter())
    {
      StepKeeps(View(), Headers(message));
      reply := reply.(headers := Some(message));
    }

    method HandleBody(bytes: seq<nat>)
      requires Valid() && Legal(View(), Body(bytes))
      modifies this`chain
      ensures Valid() && Sound() && View() == Step(old(View()), Body(bytes))
      ensures callbacks == 0 && destroyed == 0 && refCount > 0 && TheWaiter() == old(TheWaiter())
    {
      StepKeeps(View(), Body(bytes));
      chain := if chain.None? then Some(bytes) else Some(chain.value + bytes);
    }

    method HandleError()
      requires Valid() && Legal(View(), Error)
      modifies this`reply
      ensures Valid() && Sound() && View() == Step(old(View()), Error)
      ensures callbacks == 0 && destroyed == 0 && refCount > 0 && TheWaiter() == old(TheWaiter())
    {
      StepKeeps(View(), Error);
      reply := reply.(result := HTTP_ERROR);
    }

    /** The rest of a synchronous call: its reply has a result exactly when the callback has run by now. */
    method ResumeFiber()
      requires Valid() && Legal(View(), FiberResumes)
      modifies this
      ensures Valid() && Sound() && View() == Step(old(View()), FiberResumes)
      ensures caller == Returned && data == old(data) && posts <= 1
      ensures data.result != NONE <==> callbacks == 1
      ensures fiberState == kTimeout <==> old(baton) == TimedOut
      ensures destroyed == 1 <==> !InFlight(View())
    {
      ResumeKeeps(View());
      var posted := baton == Posted;
      if !posted { fiberState := kTimeout; }
      DoReturn();
    }
  }
}
