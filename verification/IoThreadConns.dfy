/**
 * One I/O thread's connection manager: the live pipelines by id, the ids by service, and the registered server
 * connections (baselib/net/io_thread_pool_manager.cc, lines 61-208).
 */
module IoThreadConns {
  import opened Wrappers
  import opened ConnIds

  /** A pipeline's address; 0 is the null pointer. */
  type Pipeline = nat

  datatype ServerConn = ServerConn(serverName: string, serverNumber: nat, pipeline: Pipeline)

  datatype Index = Index(counter: nat, pipelines: map<nat, Pipeline>, byService: map<string, set<nat>>,
                         serverConns: seq<ServerConn>)

  /** The live ids whose pipeline serves a service. */
  function Serving(pipelines: map<nat, Pipeline>, service: Pipeline -> string, name: string): set<nat> {
    set id | id in pipelines && service(pipelines[id]) == name
  }

  /** The three indexes agree. */
  ghost predicate Agree(x: Index, service: Pipeline -> string) {
    && (forall id :: id in x.pipelines ==> service(x.pipelines[id]) in x.byService)
    && (forall name :: name in x.byService ==> x.byService[name] == Serving(x.pipelines, service, name))
    && (forall i :: 0 <= i < |x.serverConns| ==> x.serverConns[i].pipeline in x.pipelines.Values)
  }

  // ----- what each operation does to the indexes -----

  function IdsOf(byService: map<string, set<nat>>, name: string): set<nat> {
    if name in byService then byService[name] else {}
  }

  function Opened(x: Index, service: Pipeline -> string, counter: nat, id: nat, p: Pipeline): Index {
    x.(counter := counter, pipelines := x.pipelines[id := p],
       byService := x.byService[service(p) := IdsOf(x.byService, service(p)) + {id}])
  }

  function Registered(x: Index, conn: ServerConn): Index { x.(serverConns := x.serverConns + [conn]) }

  /** The registrations of other pipelines, in order. */
  function Without(conns: seq<ServerConn>, p: Pipeline): seq<ServerConn> {
    if conns == [] then []
    else (if conns[0].pipeline == p then [] else [conns[0]]) + Without(conns[1..], p)
  }

  function Closed(x: Index, service: Pipeline -> string, id: nat, p: Pipeline): Index {
    x.(pipelines := x.pipelines - {id},
       byService := if service(p) in x.byService
                    then x.byService[service(p) := x.byService[service(p)] - {id}] else x.byService,
       serverConns := Without(x.serverConns, p))
  }

  // ----- Without is an order-preserving filter -----

  lemma WithoutCons(c: ServerConn, conns: seq<ServerConn>, p: Pipeline)
    ensures Without([c] + conns, p) == (if c.pipeline == p then [] else [c]) + Without(conns, p)
  {
    assert ([c] + conns)[1..] == conns;
  }

  lemma {:induction false} WithoutConcat(a: seq<ServerConn>, b: seq<ServerConn>, p: Pipeline)
    ensures Without(a + b, p) == Without(a, p) + Without(b, p)
  {
    if a == [] {
      assert a + b == b;
    } else {
      var c, t := a[0], a[1..];
      WithoutConcat(t, b, p);
      assert a == [c] + t;
      assert a + b == [c] + (t + b);
      WithoutCons(c, t, p);
      WithoutCons(c, t + b, p);
    }
  }

  lemma {:induction false} WithoutMembers(conns: seq<ServerConn>, p: Pipeline, c: ServerConn)
    ensures multiset(Without(conns, p))[c] == if c.pipeline == p then 0 else multiset(conns)[c]
    ensures c in Without(conns, p) <==> c in conns && c.pipeline != p
  {
    if conns != [] {
      WithoutMembers(conns[1..], p, c);
      assert conns == [conns[0]] + conns[1..];
    }
  }

  lemma {:induction false} WithoutKeepsAll(conns: seq<ServerConn>, p: Pipeline)
    requires forall i :: 0 <= i < |conns| ==> conns[i].pipeline != p
    ensures Without(conns, p) == conns
  {
    if conns != [] {
      WithoutKeepsAll(conns[1..], p);
      assert conns == [conns[0]] + conns[1..];
    }
  }

  /** Erasing one registration of p does not change what is left in the end. */
  lemma WithoutErased(conns: seq<ServerConn>, i: nat, p: Pipeline)
    requires i < |conns| && conns[i].pipeline == p
    ensures Without(conns[..i] + conns[i + 1..], p) == Without(conns, p)
  {
    assert conns == conns[..i] + ([conns[i]] + conns[i + 1..]);
    WithoutConcat(conns[..i], conns[i + 1..], p);
    WithoutConcat(conns[..i], [conns[i]] + conns[i + 1..], p);
    WithoutCons(conns[i], conns[i + 1..], p);
  }

  // ----- agreement -----

  lemma OpenedAgrees(x: Index, service: Pipeline -> string, counter: nat, id: nat, p: Pipeline)
    requires Agree(x, service) && id !in x.pipelines
    ensures Agree(Opened(x, service, counter, id, p), service)
  {
    var y := Opened(x, service, counter, id, p);
    forall name | name in y.byService ensures y.byService[name] == Serving(y.pipelines, service, name) {
      assert forall k :: k in x.pipelines ==> y.pipelines[k] == x.pipelines[k];
      if name == service(p) {
        assert IdsOf(x.byService, name) == Serving(x.pipelines, service, name);
        assert Serving(y.pipelines, service, name) == Serving(x.pipelines, service, name) + {id};
      } else {
        assert Serving(y.pipelines, service, name) == Serving(x.pipelines, service, name);
      }
    }
    forall i | 0 <= i < |y.serverConns| ensures y.serverConns[i].pipeline in y.pipelines.Values {
      assert x.serverConns[i].pipeline in x.pipelines.Values;
      var k :| k in x.pipelines && x.pipelines[k] == y.serverConns[i].pipeline;
      assert y.pipelines[k] == y.serverConns[i].pipeline;
    }
  }

  /** Registering keeps the indexes in agreement exactly when the pipeline is live. */
  lemma RegisteredAgreesExactly(x: Index, service: Pipeline -> string, c: ServerConn)
    requires Agree(x, service)
    ensures Agree(Registered(x, c), service) <==> c.pipeline in x.pipelines.Values
  {
    var y := Registered(x, c);
    assert y.serverConns[|x.serverConns|] == c;
    assert forall i :: 0 <= i < |x.serverConns| ==> y.serverConns[i] == x.serverConns[i];
  }

  /** The close names the right connection as far as the indexes can tell. */
  ghost predicate CloseMatches(x: Index, service: Pipeline -> string, id: nat, p: Pipeline) {
    id in x.pipelines ==>
      var q := x.pipelines[id];
      && service(q) == service(p)
      && (forall i :: 0 <= i < |x.serverConns| && x.serverConns[i].pipeline == q && q != p ==>
            exists k :: k in x.pipelines && k != id && x.pipelines[k] == q)
  }

  lemma ClosedServices(x: Index, service: Pipeline -> string, id: nat, p: Pipeline)
    requires Agree(x, service)
    ensures var y := Closed(x, service, id, p);
      (forall name :: name in y.byService ==> y.byService[name] == Serving(y.pipelines, service, name))
        <==> (id in x.pipelines ==> service(x.pipelines[id]) == service(p))
  {
    var y := Closed(x, service, id, p);
    forall name | name in x.byService
      ensures Serving(y.pipelines, service, name) == x.byService[name] - {id}
    {
    }
    if id in x.pipelines && service(x.pipelines[id]) != service(p) {
      var name := service(x.pipelines[id]);
      assert id in y.byService[name] && id !in Serving(y.pipelines, service, name);
    }
  }

  lemma ClosedRegistrations(x: Index, service: Pipeline -> string, id: nat, p: Pipeline)
    requires Agree(x, service) && CloseMatches(x, service, id, p)
    ensures var y := Closed(x, service, id, p);
      forall i :: 0 <= i < |y.serverConns| ==> y.serverConns[i].pipeline in y.pipelines.Values
  {
    var y := Closed(x, service, id, p);
    forall i | 0 <= i < |y.serverConns| ensures y.serverConns[i].pipeline in y.pipelines.Values {
      var c := y.serverConns[i];
      WithoutMembers(x.serverConns, p, c);
      var j :| 0 <= j < |x.serverConns| && x.serverConns[j] == c;
      var k :| k in x.pipelines && x.pipelines[k] == c.pipeline;
      if k == id {
        var k' :| k' in x.pipelines && k' != id && x.pipelines[k'] == c.pipeline;
        assert k' in y.pipelines && y.pipelines[k'] == c.pipeline;
      } else {
        assert k in y.pipelines && y.pipelines[k] == c.pipeline;
      }
    }
  }

  /** A registration of the connection that goes, kept because the close names another pipeline, is left dangling. */
  lemma ClosedDangles(x: Index, service: Pipeline -> string, id: nat, p: Pipeline, i: nat)
    requires id in x.pipelines && i < |x.serverConns| && x.serverConns[i].pipeline == x.pipelines[id] != p
    requires forall k :: k in x.pipelines && k != id ==> x.pipelines[k] != x.pipelines[id]
    ensures !Agree(Closed(x, service, id, p), service)
  {
    var y := Closed(x, service, id, p);
    WithoutMembers(x.serverConns, p, x.serverConns[i]);
    var j :| 0 <= j < |y.serverConns| && y.serverConns[j] == x.serverConns[i];
    assert y.serverConns[j].pipeline !in y.pipelines.Values;
  }

  /** Closing keeps the indexes in agreement exactly when the id and the pipeline belong together. */
  lemma ClosedAgreesExactly(x: Index, service: Pipeline -> string, id: nat, p: Pipeline)
    requires Agree(x, service)
    ensures Agree(Closed(x, service, id, p), service) <==> CloseMatches(x, service, id, p)
  {
    ClosedServices(x, service, id, p);
    if CloseMatches(x, service, id, p) {
      ClosedRegistrations(x, service, id, p);
    } else if service(x.pipelines[id]) == service(p) {
      var q := x.pipelines[id];
      var i :| 0 <= i < |x.serverConns| && x.serverConns[i].pipeline == q && q != p
               && !exists k :: k in x.pipelines && k != id && x.pipelines[k] == q;
      ClosedDangles(x, service, id, p, i);
    }
  }

  /** A close undoes the opening, but for the registrations of the pipeline and an empty set for its service. */
  lemma CloseUndoesOpen(x: Index, service: Pipeline -> string, counter: nat, id: nat, p: Pipeline)
    requires Agree(x, service) && id !in x.pipelines
    ensures var y := Closed(Opened(x, service, counter, id, p), service, id, p);
      && y.pipelines == x.pipelines && y.serverConns == Without(x.serverConns, p)
      && forall name :: IdsOf(y.byService, name) == IdsOf(x.byService, name)
  {
    var y := Closed(Opened(x, service, counter, id, p), service, id, p);
    assert y.pipelines == x.pipelines;
    assert id !in IdsOf(x.byService, service(p));
  }

  // ----- whole runs -----

  datatype Event = Open(pipeline: Pipeline) | Register(conn: ServerConn) | Close(id: nat, pipeline: Pipeline)

  /** Only live pipelines register, and a close names an id together with its pipeline. */
  ghost predicate Legal(x: Index, e: Event) {
    match e
    case Open(p) => x.counter < U32 && CanAllocate(U32, x.counter, x.pipelines.Keys)
    case Register(c) => c.pipeline in x.pipelines.Values
    case Close(id, p) => id in x.pipelines && x.pipelines[id] == p
  }

  ghost function Step(x: Index, service: Pipeline -> string, e: Event): Index
    requires Legal(x, e)
  {
    match e
    case Open(p) =>
      var n := Ending(U32, x.counter, x.pipelines.Keys);
      Opened(x, service, CounterAt(U32, x.counter, n + 1), IdAt(U32, x.counter, n), p)
    case Register(c) => Registered(x, c)
    case Close(id, p) => Closed(x, service, id, p)
  }

  ghost predicate Runs(x: Index, service: Pipeline -> string, es: seq<Event>, y: Index)
    decreases |es|
  {
    if es == [] then y == x else Legal(x, es[0]) && Runs(Step(x, service, es[0]), service, es[1..], y)
  }

  lemma {:induction false} RunAgrees(x: Index, service: Pipeline -> string, es: seq<Event>, y: Index)
    requires Agree(x, service) && Runs(x, service, es, y)
    ensures Agree(y, service)
    decreases |es|
  {
    if es != [] {
      var e := es[0];
      match e {
        case Open(p) =>
          var n := Ending(U32, x.counter, x.pipelines.Keys);
          OpenedAgrees(x, service, CounterAt(U32, x.counter, n + 1), IdAt(U32, x.counter, n), p);
        case Register(c) => RegisteredAgreesExactly(x, service, c);
        case Close(id, p) => ClosedAgreesExactly(x, service, id, p);
      }
      RunAgrees(Step(x, service, e), service, es[1..], y);
    }
  }

  /** In every run, the service sets partition the live ids and only live pipelines are registered. */
  lemma IndexesAgreeInEveryRun(service: Pipeline -> string, es: seq<Event>, y: Index)
    requires Runs(EMPTY, service, es, y)
    ensures forall name :: IdsOf(y.byService, name) == Serving(y.pipelines, service, name)
    ensures forall a, b :: a != b ==> IdsOf(y.byService, a) !! IdsOf(y.byService, b)
    ensures forall id :: id in y.pipelines <==> exists name :: id in IdsOf(y.byService, name)
    ensures forall c :: c in y.serverConns ==> c.pipeline in y.pipelines.Values
  {
    RunAgrees(EMPTY, service, es, y);
    assert forall id :: id in y.pipelines ==> id in IdsOf(y.byService, service(y.pipelines[id]));
  }

  // ----- a close that names another connection -----

  const EMPTY: Index := Index(0, map[], map[], [])

  /** Runs, under a name of its own to keep it folded. */
  ghost predicate Leads(service: Pipeline -> string, x: Index, es: seq<Event>, y: Index) { Runs(x, service, es, y) }

  lemma LeadsAfter(service: Pipeline -> string, x: Index, e: Event, es: seq<Event>, y: Index)
    requires Legal(x, e) && Leads(service, Step(x, service, e), es, y)
    ensures Leads(service, x, [e] + es, y)
  {
    assert ([e] + es)[1..] == es;
  }

  /** Nothing is open after n iterations; the services seen so far have empty sets. */
  function Quiet(n: nat, names: map<string, set<nat>>): Index { Index(CounterAt(U32, 0, n), map[], names, []) }

  lemma QuietOpens(service: Pipeline -> string, n: nat, names: map<string, set<nat>>, p: Pipeline)
    ensures Legal(Quiet(n, names), Open(p))
    ensures Step(Quiet(n, names), service, Open(p))
         == Opened(Quiet(n, names), service, CounterAt(U32, 0, n + 1), IdAt(U32, 0, n), p)
  {
    var x := Quiet(n, names);
    assert IdAt(U32, x.counter, 0) == IdAt(U32, 0, n);
    assert IdAt(U32, x.counter, 0) !in x.pipelines.Keys;
    assert CanAllocate(U32, x.counter, x.pipelines.Keys);
    EndingUnique(U32, x.counter, x.pipelines.Keys, 0);
    CounterAtSum(U32, 0, n, 1);
  }

  /** A connection that opens and closes leaves its service's set empty. */
  lemma Cycle(service: Pipeline -> string, n: nat, names: map<string, set<nat>>, p: Pipeline, es: seq<Event>, y: Index)
    requires IdsOf(names, service(p)) == {} && Leads(service, Quiet(n + 1, names[service(p) := {}]), es, y)
    ensures Leads(service, Quiet(n, names), [Open(p)] + ([Close(IdAt(U32, 0, n), p)] + es), y)
  {
    var id := IdAt(U32, 0, n);
    var x := Opened(Quiet(n, names), service, CounterAt(U32, 0, n + 1), id, p);
    assert IdsOf(names, service(p)) + {id} == {id};
    assert x.pipelines == map[id := p] && x.byService == names[service(p) := {id}];
    assert Closed(x, service, id, p) == Quiet(n + 1, names[service(p) := {}]) by {
      assert map[id := p] - {id} == map[];
      assert {id} - {id} == {};
      assert x.byService[service(p) := {}] == names[service(p) := {}];
    }
    LeadsAfter(service, x, Close(id, p), es, y);
    QuietOpens(service, n, names, p);
    LeadsAfter(service, Quiet(n, names), Open(p), [Close(id, p)] + es, y);
  }

  lemma {:induction false} Cycles(service: Pipeline -> string, n: nat, k: nat, names: map<string, set<nat>>,
                                  p: Pipeline, es: seq<Event>, y: Index) returns (all: seq<Event>)
    requires n <= k && service(p) in names && names[service(p)] == {} && Leads(service, Quiet(k, names), es, y)
    ensures Leads(service, Quiet(n, names), all, y)
    decreases k - n
  {
    if n == k { return es; }
    var rest := Cycles(service, n + 1, k, names, p, es, y);
    assert names[service(p) := {}] == names;
    Cycle(service, n, names, p, rest, y);
    all := [Open(p)] + ([Close(IdAt(U32, 0, n), p)] + rest);
  }

  /** The stranger: a connection alone in the table, registered as a server. */
  function Alone(n: nat, names: map<string, set<nat>>, service: Pipeline -> string, c: ServerConn): Index {
    Registered(Opened(Quiet(n, names), service, CounterAt(U32, 0, n + 1), IdAt(U32, 0, n), c.pipeline), c)
  }

  lemma AloneReached(n: nat, service: Pipeline -> string, names: map<string, set<nat>>, c: ServerConn)
    returns (es: seq<Event>)
    ensures Leads(service, Quiet(n, names), es, Alone(n, names, service, c))
  {
    var x := Opened(Quiet(n, names), service, CounterAt(U32, 0, n + 1), IdAt(U32, 0, n), c.pipeline);
    assert x.pipelines[IdAt(U32, 0, n)] == c.pipeline;
    assert c.pipeline in x.pipelines.Values;
    LeadsAfter(service, x, Register(c), [], Registered(x, c));
    QuietOpens(service, n, names, c.pipeline);
    LeadsAfter(service, Quiet(n, names), Open(c.pipeline), [Register(c)] + [], Registered(x, c));
    es := [Open(c.pipeline)] + ([Register(c)] + []);
  }

  /** The connection of iteration 1 comes and goes, others follow until iteration n, and then the stranger. */
  lemma StrangerReached(n: nat, service: Pipeline -> string, other: Pipeline, p: Pipeline, c: ServerConn)
    returns (es: seq<Event>, names: map<string, set<nat>>)
    requires n >= 2
    ensures Leads(service, Quiet(0, map[]), es, Alone(n, names, service, c)) && Close(IdAt(U32, 0, 1), p) in es
  {
    var names0: map<string, set<nat>> := map[service(other) := {}];
    names := names0[service(p) := {}];
    var x := Alone(n, names, service, c);
    var last := AloneReached(n, service, names, c);
    var late := Cycles(service, 2, n, names, other, last, x);
    Cycle(service, 1, names0, p, late, x);
    var closes := [Close(IdAt(U32, 0, 1), p)] + late;
    Cycle(service, 0, map[], other, [Open(p)] + closes, x);
    es := [Open(other)] + ([Close(IdAt(U32, 0, 0), other)] + ([Open(p)] + closes));
    assert es[3] == closes[0];
  }

  lemma SecondCloseBreaks(n: nat, service: Pipeline -> string, names: map<string, set<nat>>, c: ServerConn, p: Pipeline)
    requires p != c.pipeline
    ensures var y := Closed(Alone(n, names, service, c), service, IdAt(U32, 0, n), p);
      y.pipelines == map[] && y.serverConns == [c] && !Agree(y, service)
  {
    var x := Alone(n, names, service, c);
    var y := Closed(x, service, IdAt(U32, 0, n), p);
    assert x.serverConns == [c];
    WithoutKeepsAll([c], p);
    assert x.pipelines == map[IdAt(U32, 0, n) := c.pipeline];
    assert y.serverConns[0].pipeline !in y.pipelines.Values;
  }

  lemma QuietAgrees(service: Pipeline -> string)
    ensures Agree(Quiet(0, map[]), service) && Quiet(0, map[]) == EMPTY
  {
  }

  /**
   * The manager relies on being told of each close once, which ConnHandler sees to. From a caller without that guard
   * a second close may come when the id has gone round and belongs to a stranger. It then takes the stranger's entry
   * but leaves its registration, so that dispatch by server goes on finding a pipeline no other index holds.
   */
  lemma SecondCloseHitsStranger(service: Pipeline -> string, other: Pipeline, p: Pipeline, c: ServerConn)
    requires p != c.pipeline
    ensures exists es, x, id ::
      && Leads(service, EMPTY, es, x) && Close(id, p) in es && Agree(x, service)
      && !CloseMatches(x, service, id, p) && !Agree(Closed(x, service, id, p), service)
      && Closed(x, service, id, p).pipelines == map[] && Closed(x, service, id, p).serverConns == [c]
  {
    var lap := 1 + U32 - 1;
    var es, names := StrangerReached(lap, service, other, p, c);
    var x := Alone(lap, names, service, c);
    var id := IdAt(U32, 0, 1);
    RepeatsAfterLap(U32, 0, 1);
    SecondCloseBreaks(lap, service, names, c, p);
    QuietAgrees(service);
    RunAgrees(Quiet(0, map[]), service, es, x);
    ClosedAgreesExactly(x, service, id, p);
    assert Leads(service, EMPTY, es, x) && Close(id, p) in es;
  }

  // ----- dispatch by server on this thread -----

  predicate Matches(c: ServerConn, name: string, number: nat) {
    c.serverName == name && c.serverNumber == number && c.pipeline != 0
  }

  /** The position of the first usable registration of a server; the list's length when there is none. */
  function FirstMatch(conns: seq<ServerConn>, name: string, number: nat): (i: nat)
    ensures i <= |conns| && (i < |conns| ==> Matches(conns[i], name, number))
    ensures forall j :: 0 <= j < i ==> !Matches(conns[j], name, number)
    ensures i < |conns| ==> conns[i] == ServerConn(name, number, conns[i].pipeline) && conns[i].pipeline != 0
    ensures forall j :: 0 <= j < i ==>
      conns[j].serverName != name || conns[j].serverNumber != number || conns[j].pipeline == 0
  {
    if conns == [] || Matches(conns[0], name, number) then 0 else 1 + FirstMatch(conns[1..], name, number)
  }

  // ----- the manager object -----

  class IOThreadConnManager {
    const service: Pipeline -> string
    var currentConnId: nat
    var pipelines: map<nat, Pipeline>
    var servicePipelines: map<string, set<nat>>
    var serverConns: seq<ServerConn>

    function View(): Index
      reads this
    {
      Index(currentConnId, pipelines, servicePipelines, serverConns)
    }

    ghost predicate Valid()
      reads this
    {
      currentConnId < U32
    }

    constructor (service: Pipeline -> string)
      ensures Valid() && View() == EMPTY && this.service == service && Agree(View(), service)
    {
      this.service := service;
      currentConnId, pipelines, servicePipelines, serverConns := 0, map[], map[], [];
    }

    /** The allocation loop alone, which ends with iteration `last`. */
    method Allocate(pipeline: Pipeline, ghost last: nat) returns (connId: nat)
      requires currentConnId < U32 && EndsAt(U32, currentConnId, pipelines.Keys, last)
      modifies this`currentConnId, this`pipelines
      ensures connId == IdAt(U32, old(currentConnId), last) && connId !in old(pipelines)
      ensures currentConnId == CounterAt(U32, old(currentConnId), last + 1)
      ensures pipelines == old(pipelines)[connId := pipeline]
    {
      var success := false;
      connId := 0;
      ghost var start, n: nat := currentConnId, 0;
      while !success
        invariant n <= last + 1 && currentConnId == CounterAt(U32, start, n)
        invariant !success ==> n <= last && pipelines == old(pipelines)
        invariant success ==> n == last + 1 && connId == IdAt(U32, start, last)
                              && pipelines == old(pipelines)[connId := pipeline]
        decreases last + 1 - n
      {
        connId := (currentConnId + 1) % U32;
        currentConnId := connId;
        if connId == 0 {
          currentConnId := (currentConnId + 1) % U32;
        }
        LoopStep(U32, start, n, last, connId, currentConnId, pipelines.Keys);
        if connId !in pipelines {
          pipelines := pipelines[connId := pipeline];
          success := true;
        }
        n := n + 1;
      }
    }

    method OnNewConnection(pipeline: Pipeline) returns (connId: nat)
      requires Valid() && CanAllocate(U32, currentConnId, pipelines.Keys)
      modifies this
      ensures Valid() && connId < U32 && connId !in old(pipelines)
      ensures View() == Step(old(View()), service, Open(pipeline))
      ensures old(Agree(View(), service)) ==> Agree(View(), service)
      ensures connId in pipelines && pipelines[connId] == pipeline
    {
      ghost var before := View();
      connId := Allocate(pipeline, Ending(U32, currentConnId, pipelines.Keys));
      var name := service(pipeline);
      if name !in servicePipelines {
        var tmp := {connId};
        servicePipelines := servicePipelines[name := tmp];
      } else {
        servicePipelines := servicePipelines[name := servicePipelines[name] + {connId}];
      }
      assert IdsOf(before.byService, name) + {connId} == servicePipelines[name];
      if Agree(before, service) { OpenedAgrees(before, service, currentConnId, connId, pipeline); }
    }

    /** A repeated registration is reported but added all the same. */
    method OnServerRegister(pipeline: Pipeline, serverName: string, serverNumber: nat) returns (duplicate: bool)
      requires Valid()
      modifies this`serverConns
      ensures Valid() && (old(Agree(View(), service)) ==> (Agree(View(), service) <==> pipeline in pipelines.Values))
      ensures View() == Registered(old(View()), ServerConn(serverName, serverNumber, pipeline))
      ensures serverConns == old(serverConns) + [ServerConn(serverName, serverNumber, pipeline)]
      ensures duplicate <==>
        exists c :: c in old(serverConns) && c.serverName == serverName && c.serverNumber == serverNumber
    {
      if Agree(View(), service) {
        RegisteredAgreesExactly(View(), service, ServerConn(serverName, serverNumber, pipeline));
      }
      duplicate := false;
      var i := 0;
      while i < |serverConns|
        invariant i <= |serverConns| && serverConns == old(serverConns)
        invariant duplicate <==>
          exists c :: c in serverConns[..i] && c.serverName == serverName && c.serverNumber == serverNumber
      {
        if serverConns[i].serverName == serverName && serverConns[i].serverNumber == serverNumber {
          duplicate := true;
        }
        i := i + 1;
      }
      serverConns := serverConns + [ServerConn(serverName, serverNumber, pipeline)];
    }

    /** Erases the first registration of a pipeline, if it has one. */
    method EraseFirst(pipeline: Pipeline) returns (find: bool)
      modifies this`serverConns
      ensures Without(serverConns, pipeline) == Without(old(serverConns), pipeline)
      ensures find ==> |serverConns| < |old(serverConns)|
      ensures !find ==> serverConns == Without(serverConns, pipeline)
    {
      find := false;
      var i := 0;
      while i < |serverConns|
        invariant i <= |serverConns| && serverConns == old(serverConns)
        invariant forall j :: 0 <= j < i ==> serverConns[j].pipeline != pipeline
      {
        if serverConns[i].pipeline == pipeline {
          WithoutErased(serverConns, i, pipeline);
          serverConns := serverConns[..i] + serverConns[i + 1..];
          find := true;
          return;
        }
        i := i + 1;
      }
      WithoutKeepsAll(serverConns, pipeline);
    }

    /** Closes a connection; the restart-and-erase loop leaves exactly the other pipelines' registrations, in order. */
    method OnConnectionClosed(connId: nat, pipeline: Pipeline)
      requires Valid()
      modifies this`pipelines, this`servicePipelines, this`serverConns
      ensures Valid() && View() == Closed(old(View()), service, connId, pipeline)
      ensures old(Agree(View(), service)) ==>
        (Agree(View(), service) <==> CloseMatches(old(View()), service, connId, pipeline))
    {
      ghost var before := View();
      if Agree(before, service) { ClosedAgreesExactly(before, service, connId, pipeline); }
      if connId in pipelines {
        pipelines := pipelines - {connId};
      }
      assert pipelines == before.pipelines - {connId};
      var name := service(pipeline);
      if name in servicePipelines {
        servicePipelines := servicePipelines[name := servicePipelines[name] - {connId}];
      }
      if serverConns == [] { return; }
      var find := true;
      ghost var erased, remaining := pipelines, servicePipelines;
      while find
        invariant pipelines == erased && servicePipelines == remaining
        invariant Without(serverConns, pipeline) == Without(before.serverConns, pipeline)
        invariant !find ==> serverConns == Without(serverConns, pipeline)
        decreases find, |serverConns|
      {
        find := EraseFirst(pipeline);
      }
    }

    method FindPipelines(name: string) returns (ids: set<nat>)
      ensures ids == IdsOf(servicePipelines, name)
      ensures Agree(View(), service) ==> ids == Serving(pipelines, service, name)
      ensures Agree(View(), service) ==> forall id :: id in ids <==> id in pipelines && service(pipelines[id]) == name
    {
      if name !in servicePipelines {
        ids := {};
        assert Agree(View(), service) ==> forall id :: id in pipelines ==> service(pipelines[id]) != name;
      } else {
        ids := servicePipelines[name];
      }
    }

    /** Writes to the first usable registration; `written` is the pipeline written to. */
    method DispatchIOBufByServer(name: string, number: nat) returns (written: Option<Pipeline>)
      ensures var i := FirstMatch(serverConns, name, number);
              written == if i < |serverConns| then Some(serverConns[i].pipeline) else None
      ensures written.Some? ==> exists i ::
        && 0 <= i < |serverConns| && serverConns[i] == ServerConn(name, number, written.value) && written.value != 0
        && forall j :: 0 <= j < i ==>
             serverConns[j].serverName != name || serverConns[j].serverNumber != number || serverConns[j].pipeline == 0
      ensures written.None? ==> forall i :: 0 <= i < |serverConns| ==>
        serverConns[i].serverName != name || serverConns[i].serverNumber != number || serverConns[i].pipeline == 0
    {
      var i := 0;
      while i < |serverConns|
        invariant i <= FirstMatch(serverConns, name, number)
      {
        if serverConns[i].serverName == name && serverConns[i].serverNumber == number {
          if serverConns[i].pipeline != 0 {
            return Some(serverConns[i].pipeline);
          }
        }
        i := i + 1;
      }
      written := None;
    }
  }
}
