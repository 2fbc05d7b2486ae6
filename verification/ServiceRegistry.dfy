/**
 * Starting the configured services (baselib/net/service_manager.cc, lines 78-98 and 186-259;
 * baselib/net/base/service_factory_manager.cc, lines 15-28).
 */
module ServiceRegistry {
  import opened Wrappers

  /** A service's configuration; a created service carries it. */
  datatype Config = Config(serviceType: string, serviceName: string, host: string, port: nat)

  datatype Factory = Factory(serviceType: string, serviceName: string)

  /** What a name stands for: one server, or a group of clients, which keeps the first client's configuration. */
  datatype Entry = Single(service: Config) | Group(config: Config, clients: seq<Config>)

  type Services = map<string, Entry>

  predicate IsClient(c: Config) { c.serviceType == "tcp_client" }

  predicate IsServer(c: Config) {
    c.serviceType == "tcp_server" || c.serviceType == "secure_tcp_server" || c.serviceType == "http_server"
  }

  // ----- what the code does -----

  predicate HasFactory(factories: seq<Factory>, c: Config) {
    exists i :: 0 <= i < |factories| && factories[i] == Factory(c.serviceType, c.serviceName)
  }

  /** The services that are created: those with a factory of their type and name. */
  function Created(factories: seq<Factory>, configs: seq<Config>): seq<Config> {
    if configs == [] then []
    else (if HasFactory(factories, configs[0]) then [configs[0]] else []) + Created(factories, configs[1..])
  }

  /** Register one service; None is the fatal log that ends the process. */
  function Register(services: Services, c: Config): Option<Services> {
    var name := c.serviceName;
    if IsClient(c) then
      if name !in services then Some(services[name := Group(c, [c])])
      else if services[name].Group? && services[name].config.serviceType == c.serviceType
      then Some(services[name := services[name].(clients := services[name].clients + [c])])
      else None
    else if IsServer(c) && name !in services then Some(services[name := Single(c)])
    else None
  }

  function RegisterAll(services: Services, created: seq<Config>): Option<Services>
    decreases |created|
  {
    if created == [] then Some(services)
    else
      var next := Register(services, created[0]);
      if next.None? then None else RegisterAll(next.value, created[1..])
  }

  function StartAll(factories: seq<Factory>, configs: seq<Config>): Option<Services> {
    RegisterAll(map[], Created(factories, configs))
  }

  // ----- what start-up amounts to -----

  predicate Clash(x: Config, y: Config) { x.serviceName == y.serviceName && !(IsClient(x) && IsClient(y)) }

  ghost predicate PairOf(all: multiset<Config>, x: Config, y: Config) { multiset{x, y} <= all }

  /** A service of unknown type, or two services that share a name and are not both clients. No order is involved. */
  ghost predicate Conflict(all: multiset<Config>) {
    || (exists x :: x in all && !IsClient(x) && !IsServer(x))
    || (exists x, y :: PairOf(all, x, y) && Clash(x, y))
  }

  /** The services of one name, in order. */
  function Named(all: seq<Config>, name: string): seq<Config> {
    if all == [] then []
    else
      var c := all[|all| - 1];
      Named(all[..|all| - 1], name) + if c.serviceName == name then [c] else []
  }

  /** The entries are the created services, each exactly once: servers alone, clients grouped by name in order. */
  ghost predicate EntryFor(services: Services, all: seq<Config>, name: string) {
    if name !in services then Named(all, name) == []
    else match services[name]
      case Single(c) => Named(all, name) == [c] && IsServer(c)
      case Group(config, clients) =>
        clients == Named(all, name) && clients != [] && config == clients[0] && forall c :: c in clients ==> IsClient(c)
  }

  ghost predicate Describes(services: Services, all: seq<Config>) { forall name :: EntryFor(services, all, name) }

  lemma NamedExtended(all: seq<Config>, c: Config, name: string)
    ensures Named(all + [c], name) == Named(all, name) + if c.serviceName == name then [c] else []
  {
    assert (all + [c])[..|all|] == all;
  }

  lemma {:induction false} NamedMembers(all: seq<Config>, name: string, c: Config)
    ensures c in Named(all, name) <==> c in all && c.serviceName == name
    decreases |all|
  {
    if all != [] {
      var n := |all| - 1;
      NamedMembers(all[..n], name, c);
      assert all == all[..n] + [all[n]];
    }
  }

  lemma ConflictGrows(a: multiset<Config>, b: multiset<Config>)
    requires Conflict(a)
    ensures Conflict(a + b)
  {
    if x :| x in a && !IsClient(x) && !IsServer(x) {
      assert x in a + b;
    } else {
      var x, y :| PairOf(a, x, y) && Clash(x, y);
      assert PairOf(a + b, x, y);
    }
  }

  /** A service that meets a known one of its name, not both of them clients, is a conflict. */
  lemma MeetingConflicts(all: seq<Config>, c: Config, d: Config)
    requires d in all && Clash(d, c)
    ensures Conflict(multiset(all) + multiset{c})
  {
    assert PairOf(multiset(all) + multiset{c}, d, c);
  }

  lemma PairShrinks(all: seq<Config>, c: Config, x: Config, y: Config)
    requires PairOf(multiset(all) + multiset{c}, x, y) && x != c && y != c
    ensures PairOf(multiset(all), x, y)
  {
    forall z ensures multiset{x, y}[z] <= multiset(all)[z] {
      assert multiset{x, y}[z] <= (multiset(all) + multiset{c})[z];
    }
  }

  /** A new conflict involves the service that brings it. */
  lemma NewConflict(all: seq<Config>, c: Config)
    requires !Conflict(multiset(all)) && Conflict(multiset(all) + multiset{c})
    ensures (!IsClient(c) && !IsServer(c)) || exists d :: d in all && Clash(d, c)
  {
    var grown := multiset(all) + multiset{c};
    if x :| x in grown && !IsClient(x) && !IsServer(x) {
      assert x == c;
    } else {
      var x, y :| PairOf(grown, x, y) && Clash(x, y);
      if x != c && y != c {
        PairShrinks(all, c, x, y);
        assert false;
      } else {
        PartnerKnown(all, c, if x == c then y else x);
      }
    }
  }

  lemma PartnerKnown(all: seq<Config>, c: Config, d: Config)
    requires PairOf(multiset(all) + multiset{c}, c, d) || PairOf(multiset(all) + multiset{c}, d, c)
    ensures d in all
  {
    assert multiset{c, d} == multiset{d, c};
    assert multiset{c, d}[d] <= (multiset(all) + multiset{c})[d];
  }

  lemma RegisterFails(services: Services, all: seq<Config>, c: Config)
    requires Describes(services, all) && Register(services, c).None?
    ensures Conflict(multiset(all) + multiset{c})
  {
    var name := c.serviceName;
    assert EntryFor(services, all, name);
    if !IsClient(c) && !IsServer(c) {
      assert c in multiset(all) + multiset{c};
    } else {
      var d := if services[name].Single? then services[name].service else services[name].clients[0];
      NamedMembers(all, name, d);
      MeetingConflicts(all, c, d);
    }
  }

  lemma RegisterDescribes(services: Services, all: seq<Config>, c: Config)
    requires Describes(services, all) && Register(services, c).Some?
    ensures Describes(Register(services, c).value, all + [c])
  {
    var after := Register(services, c).value;
    forall name ensures EntryFor(after, all + [c], name) {
      assert EntryFor(services, all, name);
      NamedExtended(all, c, name);
    }
  }

  lemma RegisterAvoidsConflict(services: Services, all: seq<Config>, c: Config)
    requires Describes(services, all) && Register(services, c).Some? && !Conflict(multiset(all))
    ensures !Conflict(multiset(all) + multiset{c})
  {
    if Conflict(multiset(all) + multiset{c}) {
      NewConflict(all, c);
      assert EntryFor(services, all, c.serviceName);
      var d :| d in all && Clash(d, c);
      NamedMembers(all, c.serviceName, d);
      assert false;
    }
  }

  /** One registration: refused exactly on a new conflict, entered otherwise. */
  lemma RegisterExact(services: Services, all: seq<Config>, c: Config)
    requires Describes(services, all)
    ensures !Conflict(multiset(all)) ==> (Register(services, c).None? <==> Conflict(multiset(all) + multiset{c}))
    ensures Register(services, c).Some? ==> Describes(Register(services, c).value, all + [c])
  {
    if Register(services, c).None? {
      RegisterFails(services, all, c);
    } else {
      RegisterDescribes(services, all, c);
      if !Conflict(multiset(all)) { RegisterAvoidsConflict(services, all, c); }
    }
  }

  lemma {:induction false} RegisterAllExact(services: Services, done: seq<Config>, rest: seq<Config>)
    requires Describes(services, done) && !Conflict(multiset(done))
    ensures RegisterAll(services, rest).None? <==> Conflict(multiset(done + rest))
    ensures RegisterAll(services, rest).Some? ==> Describes(RegisterAll(services, rest).value, done + rest)
    decreases |rest|
  {
    if rest == [] {
      assert done + rest == done;
    } else {
      var c, next := rest[0], Register(services, rest[0]);
      assert done + rest == (done + [c]) + rest[1..];
      RegisterExact(services, done, c);
      if next.None? {
        ConflictGrows(multiset(done) + multiset{c}, multiset(rest[1..]));
        assert multiset(done + rest) == multiset(done) + multiset{c} + multiset(rest[1..]);
      } else {
        assert multiset(done + [c]) == multiset(done) + multiset{c};
        RegisterAllExact(next.value, done + [c], rest[1..]);
      }
    }
  }

  lemma NothingYet()
    ensures Describes(map[], []) && !Conflict(multiset([]))
  {
    forall x, y ensures !PairOf(multiset([]), x, y) {
      assert multiset{x, y}[x] > 0;
    }
  }

  /** Start-up ends the process exactly on a conflict; otherwise its entries are the created services, each once. */
  lemma StartExact(factories: seq<Factory>, configs: seq<Config>)
    ensures StartAll(factories, configs).None? <==> Conflict(multiset(Created(factories, configs)))
    ensures StartAll(factories, configs).Some? ==>
      Describes(StartAll(factories, configs).value, Created(factories, configs))
  {
    var created := Created(factories, configs);
    NothingYet();
    RegisterAllExact(map[], [], created);
    assert [] + created == created;
  }

  lemma {:induction false} CreatedCount(factories: seq<Factory>, configs: seq<Config>, c: Config)
    ensures multiset(Created(factories, configs))[c] == if HasFactory(factories, c) then multiset(configs)[c] else 0
  {
    if configs != [] {
      CreatedCount(factories, configs[1..], c);
      assert configs == [configs[0]] + configs[1..];
    }
  }

  lemma {:induction false} NamedCount(all: seq<Config>, name: string, c: Config)
    ensures multiset(Named(all, name))[c] == if c.serviceName == name then multiset(all)[c] else 0
    decreases |all|
  {
    if all != [] {
      var n := |all| - 1;
      NamedCount(all[..n], name, c);
      assert all == all[..n] + [all[n]];
    }
  }

  /** The same server, or groups of the same clients. */
  ghost predicate SameEntry(x: Entry, y: Entry) {
    match x
    case Single(c) => y == Single(c)
    case Group(_, clients) => y.Group? && multiset(clients) == multiset(y.clients)
  }

  ghost predicate SameServices(a: Services, b: Services) {
    a.Keys == b.Keys && forall name :: name in a ==> SameEntry(a[name], b[name])
  }

  lemma SingletonMultiset(s: seq<Config>, c: Config)
    requires multiset(s) == multiset{c}
    ensures s == [c]
  {
    assert |multiset(s)| == 1;
    assert s[0] in multiset(s);
  }

  lemma ServerIsNoClient(c: Config)
    requires IsServer(c)
    ensures !IsClient(c)
  {
    assert "tcp_client"[4] != "tcp_server"[4];
  }

  lemma NamedSame(all: seq<Config>, reordered: seq<Config>, name: string)
    requires multiset(all) == multiset(reordered)
    ensures multiset(Named(all, name)) == multiset(Named(reordered, name))
  {
    forall c ensures multiset(Named(all, name))[c] == multiset(Named(reordered, name))[c] {
      NamedCount(all, name, c);
      NamedCount(reordered, name, c);
    }
  }

  lemma SameSingle(a: Services, all: seq<Config>, b: Services, reordered: seq<Config>, name: string)
    requires EntryFor(a, all, name) && EntryFor(b, reordered, name) && multiset(all) == multiset(reordered)
    requires name in a && a[name].Single?
    ensures name in b && b[name] == a[name]
  {
    var c := a[name].service;
    NamedSame(all, reordered, name);
    SingletonMultiset(Named(reordered, name), c);
    ServerIsNoClient(c);
    assert Named(reordered, name)[0] == c;
  }

  lemma SameEntries(a: Services, all: seq<Config>, b: Services, reordered: seq<Config>, name: string)
    requires EntryFor(a, all, name) && EntryFor(b, reordered, name) && multiset(all) == multiset(reordered)
    requires name in a
    ensures name in b && SameEntry(a[name], b[name])
  {
    if a[name].Single? {
      SameSingle(a, all, b, reordered, name);
    } else {
      NamedSame(all, reordered, name);
      assert name in b by { assert |multiset(Named(all, name))| > 0; }
      if b[name].Single? { SameSingle(b, reordered, a, all, name); }
    }
  }

  /**
   * The order of the configuration decides neither whether start-up succeeds nor what it enters under each name; only
   * the order within a group of clients, and with it the configuration the group keeps, follows it.
   */
  lemma OrderDoesNotMatter(factories: seq<Factory>, a: seq<Config>, b: seq<Config>)
    requires multiset(a) == multiset(b)
    ensures StartAll(factories, a).None? <==> StartAll(factories, b).None?
    ensures StartAll(factories, a).Some? ==> SameServices(StartAll(factories, a).value, StartAll(factories, b).value)
  {
    StartExact(factories, a);
    StartExact(factories, b);
    var x, y := Created(factories, a), Created(factories, b);
    forall c ensures multiset(x)[c] == multiset(y)[c] {
      CreatedCount(factories, a, c);
      CreatedCount(factories, b, c);
    }
    assert multiset(x) == multiset(y);
    if StartAll(factories, a).Some? {
      var left, right := StartAll(factories, a).value, StartAll(factories, b).value;
      forall name ensures name in left <==> name in right
                  ensures name in left ==> SameEntry(left[name], right[name])
      {
        assert EntryFor(left, x, name) && EntryFor(right, y, name);
        if name in left { SameEntries(left, x, right, y, name); }
        if name in right { SameEntries(right, y, left, x, name); }
      }
    }
  }

  // ----- the types and names themselves -----

  predicate AnyOfTypes(c: Config) {
    c.serviceType in {"tcp_client", "tcp_server", "secure_tcp_server", "http_server"}
  }

  lemma TypeNames(c: Config)
    ensures IsClient(c) || IsServer(c) <==> AnyOfTypes(c)
    ensures IsClient(c) <==> c.serviceType == "tcp_client"
  {
  }

  /** A conflict in the terms of the configuration. */
  lemma ConflictExactly(all: seq<Config>)
    ensures Conflict(multiset(all)) <==>
      || (exists i :: 0 <= i < |all| && !AnyOfTypes(all[i]))
      || (exists i, j :: 0 <= i < j < |all| && all[i].serviceName == all[j].serviceName
            && (all[i].serviceType != "tcp_client" || all[j].serviceType != "tcp_client"))
  {
    forall c ensures IsClient(c) || IsServer(c) <==> AnyOfTypes(c) { TypeNames(c); }
    if i :| 0 <= i < |all| && !AnyOfTypes(all[i]) {
      assert all[i] in multiset(all);
    }
    if i, j :| 0 <= i < j < |all| && all[i].serviceName == all[j].serviceName
               && (all[i].serviceType != "tcp_client" || all[j].serviceType != "tcp_client") {
      PairAt(all, i, j);
      assert Clash(all[i], all[j]);
    }
    if x, y :| PairOf(multiset(all), x, y) && Clash(x, y) {
      var i, j := IndexesOfPair(all, x, y);
    } else if x :| x in multiset(all) && !IsClient(x) && !IsServer(x) {
      var i :| 0 <= i < |all| && all[i] == x;
    }
  }

  lemma PairAt(all: seq<Config>, i: nat, j: nat)
    requires i < j < |all|
    ensures PairOf(multiset(all), all[i], all[j])
  {
    assert all == all[..i] + [all[i]] + all[i + 1..j] + [all[j]] + all[j + 1..];
    assert multiset(all)
        == multiset(all[..i]) + multiset{all[i]} + multiset(all[i + 1..j]) + multiset{all[j]} + multiset(all[j + 1..]);
  }

  lemma IndexesOfPair(all: seq<Config>, x: Config, y: Config) returns (i: nat, j: nat)
    requires PairOf(multiset(all), x, y) && Clash(x, y)
    ensures i < j < |all| && all[i].serviceName == all[j].serviceName
    ensures all[i].serviceType != "tcp_client" || all[j].serviceType != "tcp_client"
  {
    assert multiset{x} + multiset{y} == multiset{x, y};
    var a := PositionOf(all, x, multiset{y});
    var rest := all[..a] + all[a + 1..];
    var b := PositionOf(rest, y, multiset{});
    var c := if b < a then b else b + 1;
    assert all[c] == rest[b];
    i, j := if a < c then a else c, if a < c then c else a;
  }

  lemma PositionOf(all: seq<Config>, x: Config, others: multiset<Config>) returns (a: nat)
    requires multiset{x} + others <= multiset(all)
    ensures a < |all| && all[a] == x && others <= multiset(all[..a] + all[a + 1..])
  {
    assert (multiset{x} + others)[x] >= 1;
    assert x in multiset(all);
    a :| a < |all| && all[a] == x;
    assert all == all[..a] + [x] + all[a + 1..];
    var rest := multiset(all[..a] + all[a + 1..]);
    assert multiset(all) == rest + multiset{x};
    forall c ensures others[c] <= rest[c] {
      assert (multiset{x} + others)[c] <= multiset(all)[c];
    }
  }

  /** Services with factories, of the four types, with names of their own, always start. */
  lemma DistinctNamesStart(factories: seq<Factory>, configs: seq<Config>)
    requires forall i :: 0 <= i < |configs| ==>
      && AnyOfTypes(configs[i])
      && Factory(configs[i].serviceType, configs[i].serviceName) in factories
    requires forall i, j :: 0 <= i < j < |configs| ==> configs[i].serviceName != configs[j].serviceName
    ensures StartAll(factories, configs).Some?
    ensures forall i :: 0 <= i < |configs| ==> configs[i].serviceName in StartAll(factories, configs).value
  {
    AllCreated(factories, configs);
    StartExact(factories, configs);
    ConflictExactly(configs);
    forall i | 0 <= i < |configs| ensures configs[i].serviceName in StartAll(factories, configs).value {
      NamedMembers(configs, configs[i].serviceName, configs[i]);
      assert EntryFor(StartAll(factories, configs).value, configs, configs[i].serviceName);
    }
  }

  lemma {:induction false} AllCreated(factories: seq<Factory>, configs: seq<Config>)
    requires forall i :: 0 <= i < |configs| ==>
      Factory(configs[i].serviceType, configs[i].serviceName) in factories
    ensures Created(factories, configs) == configs
  {
    if configs != [] {
      AllCreated(factories, configs[1..]);
      assert configs == [configs[0]] + configs[1..];
    }
  }

  /** Nothing without a factory of its own type and name is entered. */
  lemma EnteredHasFactory(factories: seq<Factory>, configs: seq<Config>, c: Config)
    ensures c in Created(factories, configs) <==>
      c in configs && Factory(c.serviceType, c.serviceName) in factories
  {
    CreatedCount(factories, configs, c);
    assert c in multiset(configs) <==> c in configs;
    assert c in multiset(Created(factories, configs)) <==> c in Created(factories, configs);
  }

  // ----- the object -----

  class ServiceManager {
    const factories: seq<Factory>
    var services: Services
    var started: seq<Config>

    constructor (factories: seq<Factory>)
      ensures this.factories == factories && services == map[] && started == []
    {
      this.factories, services, started := factories, map[], [];
    }

    method CreateService(config: Config) returns (created: bool)
      ensures created == HasFactory(factories, config)
      ensures created <==> Factory(config.serviceType, config.serviceName) in factories
    {
      created := false;
      var i := 0;
      while i < |factories|
        invariant i <= |factories|
        invariant forall j :: 0 <= j < i ==> factories[j] != Factory(config.serviceType, config.serviceName)
      {
        if factories[i].serviceType == config.serviceType {
          if factories[i].serviceName == config.serviceName {
            assert factories[i] == Factory(config.serviceType, config.serviceName);
            return true;
          }
        }
        i := i + 1;
      }
    }

    /**
     * False stands for the fatal log. On a registry that holds the services `all`, which are free of conflict, the
     * service is refused exactly if it brings a conflict, and is otherwise entered beside them.
     */
    method RegisterServiceBase(c: Config, ghost all: seq<Config>) returns (ok: bool)
      modifies this`services
      ensures ok == Register(old(services), c).Some?
      ensures services == if ok then Register(old(services), c).value else old(services)
      ensures old(Describes(services, all)) && !Conflict(multiset(all)) ==>
        (ok <==> !Conflict(multiset(all) + multiset{c}))
      ensures old(Describes(services, all)) ==> Describes(services, if ok then all + [c] else all)
    {
      if Describes(services, all) { RegisterExact(services, all, c); }
      ok := DoRegister(c);
    }

    method DoRegister(c: Config) returns (ok: bool)
      modifies this`services
      ensures ok == Register(old(services), c).Some?
      ensures services == if ok then Register(old(services), c).value else old(services)
    {
      var name := c.serviceName;
      if IsClient(c) {
        if name in services {
          if services[name].Group? && services[name].config.serviceType == c.serviceType {
            services := services[name := Group(services[name].config, services[name].clients + [c])];
            return true;
          } else {
            return false;
          }
        } else {
          services := services[name := Group(c, [c])];
          return true;
        }
      } else if IsServer(c) {
        if name !in services {
          services := services[name := Single(c)];
          return true;
        } else {
          return false;
        }
      }
      return false;
    }

    /** Creates, registers and starts the configured services; false when the process ends on the way. */
    method Start(configs: seq<Config>) returns (ok: bool)
      modifies this`services, this`started
      ensures ok == RegisterAll(old(services), Created(factories, configs)).Some?
      ensures ok ==> services == RegisterAll(old(services), Created(factories, configs)).value
                     && started == old(started) + Created(factories, configs)
      ensures old(services) == map[] ==> (ok <==> !Conflict(multiset(Created(factories, configs))))
      ensures old(services) == map[] && ok ==> Describes(services, Created(factories, configs))
    {
      ok := StartLoop(configs);
      StartExact(factories, configs);
    }

    /** A service without a factory is passed over. */
    method StartOne(c: Config) returns (ok: bool)
      modifies this`services, this`started
      ensures ok == (HasFactory(factories, c) ==> Register(old(services), c).Some?)
      ensures ok ==>
        if HasFactory(factories, c)
        then services == Register(old(services), c).value && started == old(started) + [c]
        else services == old(services) && started == old(started)
    {
      var created := CreateService(c);
      if created {
        var registered := RegisterServiceBase(c, started);
        if !registered { return false; }
        started := started + [c];
      }
      ok := true;
    }

    method StartLoop(configs: seq<Config>) returns (ok: bool)
      modifies this`services, this`started
      ensures ok == RegisterAll(old(services), Created(factories, configs)).Some?
      ensures ok ==> services == RegisterAll(old(services), Created(factories, configs)).value
                     && started == old(started) + Created(factories, configs)
    {
      var i := 0;
      ghost var all := Created(factories, configs);
      assert configs[0..] == configs;
      while i < |configs|
        invariant i <= |configs|
        invariant RegisterAll(services, Created(factories, configs[i..])) == RegisterAll(old(services), all)
        invariant started + Created(factories, configs[i..]) == old(started) + all
      {
        var c := configs[i];
        ghost var rest := Created(factories, configs[i + 1..]);
        CreatedFrom(factories, configs, i);
        RegisterAllCons(services, c, rest);
        assert (started + [c]) + rest == started + ([c] + rest);
        var registered := StartOne(c);
        if !registered { return false; }
        i := i + 1;
      }
      assert started + [] == started;
      ok := true;
    }
  }

  lemma CreatedFrom(factories: seq<Factory>, configs: seq<Config>, i: nat)
    requires i < |configs|
    ensures var rest := Created(factories, configs[i + 1..]);
      Created(factories, configs[i..]) == if HasFactory(factories, configs[i]) then [configs[i]] + rest else rest
  {
    assert configs[i..][1..] == configs[i + 1..];
  }

  lemma RegisterAllCons(services: Services, c: Config, rest: seq<Config>)
    ensures RegisterAll(services, [c] + rest)
      == if Register(services, c).None? then None else RegisterAll(Register(services, c).value, rest)
  {
    assert ([c] + rest)[1..] == rest;
  }
}
