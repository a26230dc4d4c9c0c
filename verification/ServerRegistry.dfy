/** Registered clients and the routes that lead to them. */
module ServerRegistry {
  import opened Basics

  /** One registration; `serial` is the identity of the object, so a successor with the same ID differs. */
  datatype Instance = Instance(serial: nat, clientID: string, tunnels: seq<string>)
  /** `serial` is the registration that wrote the route, and so stands for its target, credentials and headers. */
  datatype Route = Route(clientID: string, tunnelName: string, serial: nat)
  datatype Registry = Registry(clients: map<string, Instance>, routes: map<string, Route>)

  const EMPTY := Registry(map[], map[])

  predicate Owned(routes: map<string, Route>, name: string, clientID: string) {
    name in routes && routes[name].clientID == clientID
  }

  /** RouteRegistry.DeleteOwned */
  function DeleteOwned(routes: map<string, Route>, name: string, clientID: string): map<string, Route> {
    if Owned(routes, name, clientID) then routes - {name} else routes
  }

  function DeleteAllOwned(routes: map<string, Route>, names: seq<string>, clientID: string): map<string, Route>
    decreases |names|
  {
    if names == [] then routes else DeleteAllOwned(DeleteOwned(routes, names[0], clientID), names[1..], clientID)
  }

  function RouteTo(client: Instance, name: string): Route {
    Route(client.clientID, name, client.serial)
  }

  function PutRoutes(routes: map<string, Route>, names: seq<string>, client: Instance): map<string, Route>
    decreases |names|
  {
    if names == [] then routes else PutRoutes(routes[names[0] := RouteTo(client, names[0])], names[1..], client)
  }

  /** Drop a client and the routes it lists that are still its own. */
  function Remove(r: Registry, clientID: string): Registry
    requires clientID in r.clients
  {
    Registry(r.clients - {clientID}, DeleteAllOwned(r.routes, r.clients[clientID].tunnels, clientID))
  }

  /** forgetServerClient */
  function Forget(r: Registry, clientID: string, client: Instance): (Registry, bool) {
    if clientID !in r.clients || r.clients[clientID] != client then (r, false) else (Remove(r, clientID), true)
  }

  datatype Registered = Accepted(client: Instance) | NameTaken(name: string)

  predicate Taken(routes: map<string, Route>, name: string, clientID: string) {
    name in routes && routes[name].clientID != clientID
  }

  function FirstTaken(routes: map<string, Route>, names: seq<string>, clientID: string): Option<string> {
    if names == [] then None
    else if Taken(routes, names[0], clientID) then Some(names[0])
    else FirstTaken(routes, names[1..], clientID)
  }

  /**
   * The registry part of registration. `names` are the requested tunnel names, generated ones
   * filled in; an empty list is the single-tunnel form, whose route is named after the client.
   */
  function Register(r: Registry, serial: nat, clientID: string, names: seq<string>): (Registry, Registered) {
    var r := if clientID in r.clients then Remove(r, clientID) else r;
    var taken := FirstTaken(r.routes, names, clientID);
    if taken.Some? then (r, NameTaken(taken.value))
    else
      var tunnels := if names == [] then [clientID] else names;
      var client := Instance(serial, clientID, tunnels);
      (Registry(r.clients[clientID := client], PutRoutes(r.routes, tunnels, client)), Accepted(client))
  }

  /** resolveServerTunnel on registries that do not change in between: the client and, when found by name, the route. */
  function Resolve(r: Registry, subdomain: string): (Option<Instance>, Option<Route>) {
    if subdomain in r.routes then
      var route := r.routes[subdomain];
      (if route.clientID in r.clients then Some(r.clients[route.clientID]) else None, Some(route))
    else (if subdomain in r.clients then Some(r.clients[subdomain]) else None, None)
  }

  /** A name is looked up as a route first, and as a client ID otherwise. */
  lemma ResolveExactly(r: Registry, subdomain: string)
    ensures var (client, route) := Resolve(r, subdomain);
            var id := if subdomain in r.routes then r.routes[subdomain].clientID else subdomain;
            && (route.Some? <==> subdomain in r.routes) && (route.Some? ==> route.value == r.routes[subdomain])
            && (client.Some? <==> id in r.clients) && (client.Some? ==> client.value == r.clients[id])
  {
  }

  // ----- the invariant -----

  /** Every route leads to a registered client that lists it, and was written by that registration. */
  ghost predicate RoutesLead(r: Registry) {
    && (forall id | id in r.clients :: r.clients[id].clientID == id)
    && (forall name | name in r.routes ::
          && r.routes[name].tunnelName == name
          && r.routes[name].clientID in r.clients
          && name in r.clients[r.routes[name].clientID].tunnels
          && r.routes[name].serial == r.clients[r.routes[name].clientID].serial)
  }

  lemma {:induction false} DeleteAllOwnedEffect(routes: map<string, Route>, names: seq<string>, clientID: string)
    ensures var after := DeleteAllOwned(routes, names, clientID);
            forall name :: (name in after <==> name in routes && !(name in names && routes[name].clientID == clientID))
                           && (name in after ==> after[name] == routes[name])
    decreases |names|
  {
    if names != [] {
      var once := DeleteOwned(routes, names[0], clientID);
      DeleteAllOwnedEffect(once, names[1..], clientID);
      assert forall name :: name in names <==> name == names[0] || name in names[1..];
    }
  }

  lemma {:induction false} PutRoutesEffect(routes: map<string, Route>, names: seq<string>, client: Instance)
    ensures var after := PutRoutes(routes, names, client);
            forall name :: (name in after <==> name in routes || name in names)
                           && (name in names ==> after[name] == RouteTo(client, name))
                           && (name in routes && name !in names ==> after[name] == routes[name])
    decreases |names|
  {
    if names != [] {
      PutRoutesEffect(routes[names[0] := RouteTo(client, names[0])], names[1..], client);
      assert forall name :: name in names <==> name == names[0] || name in names[1..];
    }
  }

  /** Removing a client removes all of its routes and no other route. */
  lemma RemoveEffect(r: Registry, clientID: string)
    requires RoutesLead(r) && clientID in r.clients
    ensures var after := Remove(r, clientID);
            && RoutesLead(after)
            && clientID !in after.clients
            && forall name :: (name in after.routes <==> name in r.routes && r.routes[name].clientID != clientID)
                              && (name in after.routes ==> after.routes[name] == r.routes[name])
  {
    DeleteAllOwnedEffect(r.routes, r.clients[clientID].tunnels, clientID);
  }

  lemma {:induction false} FirstTakenFinds(routes: map<string, Route>, names: seq<string>, clientID: string)
    ensures FirstTaken(routes, names, clientID).None? <==> forall name | name in names :: !Taken(routes, name, clientID)
    ensures FirstTaken(routes, names, clientID).Some? ==> Taken(routes, FirstTaken(routes, names, clientID).value, clientID)
  {
    if names != [] {
      FirstTakenFinds(routes, names[1..], clientID);
      assert forall name :: name in names <==> name == names[0] || name in names[1..];
    }
  }

  /** The name reported is the first requested one that leads to another client. */
  lemma {:induction false} FirstTakenIsFirst(routes: map<string, Route>, names: seq<string>, clientID: string) returns (k: nat)
    requires FirstTaken(routes, names, clientID).Some?
    ensures k < |names| && names[k] == FirstTaken(routes, names, clientID).value
    ensures names[k] in routes && routes[names[k]].clientID != clientID
    ensures forall j | 0 <= j < k :: names[j] in routes ==> routes[names[j]].clientID == clientID
  {
    if Taken(routes, names[0], clientID) {
      k := 0;
    } else {
      k := FirstTakenIsFirst(routes, names[1..], clientID);
      k := k + 1;
    }
  }

  function Cleared(r: Registry, clientID: string): Registry {
    if clientID in r.clients then Remove(r, clientID) else r
  }

  lemma ClearedEffect(r: Registry, clientID: string)
    requires RoutesLead(r)
    ensures var after := Cleared(r, clientID);
            && RoutesLead(after) && clientID !in after.clients
            && forall name :: (name in after.routes <==> name in r.routes && r.routes[name].clientID != clientID)
                              && (name in after.routes ==> after.routes[name] == r.routes[name])
  {
    if clientID in r.clients { RemoveEffect(r, clientID); }
  }

  /**
   * What registration does. Accepted: the client is registered, every tunnel it lists resolves to
   * it, and it owns nothing else. Refused: a requested name belongs to another client, the caller's
   * previous registration and its routes are gone, and nothing else changed.
   */
  lemma RegisterEffect(r: Registry, serial: nat, clientID: string, names: seq<string>)
    requires RoutesLead(r)
    ensures var (after, result) := Register(r, serial, clientID, names);
            && RoutesLead(after)
            && (result.NameTaken? <==> exists name :: name in names && Taken(r.routes, name, clientID))
            && (result.NameTaken? ==> clientID !in after.clients && after == Cleared(r, clientID))
            && (result.Accepted? ==>
                  && after.clients == r.clients[clientID := result.client]
                  && result.client == Instance(serial, clientID, if names == [] then [clientID] else names)
                  && (forall name | name in result.client.tunnels :: Resolve(after, name) == (Some(result.client), Some(RouteTo(result.client, name))))
                  && (forall name | name in after.routes && after.routes[name].clientID == clientID :: name in result.client.tunnels))
  {
    ClearedEffect(r, clientID);
    var c := Cleared(r, clientID);
    FirstTakenFinds(c.routes, names, clientID);
    assert forall name :: Taken(c.routes, name, clientID) <==> Taken(r.routes, name, clientID);
    if FirstTaken(c.routes, names, clientID).None? {
      PublishEffect(c, Instance(serial, clientID, if names == [] then [clientID] else names));
      hide PutRoutes, FirstTaken, RoutesLead, Remove, Resolve, Taken;
      assert Register(r, serial, clientID, names).0.clients == r.clients[clientID := Register(r, serial, clientID, names).1.client] by {
        assert c.clients == r.clients - {clientID} || c == r;
      }
    }
  }

  /** Publishing a client that owns nothing yet makes its tunnels, and only those, lead to it. */
  lemma PublishEffect(c: Registry, client: Instance)
    requires RoutesLead(c) && client.clientID !in c.clients
    ensures var after := Registry(c.clients[client.clientID := client], PutRoutes(c.routes, client.tunnels, client));
            && RoutesLead(after)
            && (forall name | name in client.tunnels :: Resolve(after, name) == (Some(client), Some(RouteTo(client, name))))
            && (forall name | name in after.routes && after.routes[name].clientID == client.clientID :: name in client.tunnels)
  {
    PutRoutesEffect(c.routes, client.tunnels, client);
    hide PutRoutes;
  }

  /** Another client's routes are exactly as before. */
  ghost predicate OthersUntouched(r: Registry, after: Registry, clientID: string) {
    forall name | name in r.routes && r.routes[name].clientID != clientID ::
      name in after.routes && after.routes[name] == r.routes[name]
  }

  /** The exact condition under which a registration leaves every other client's routes alone. */
  lemma RegistrationInterference(r: Registry, serial: nat, clientID: string, names: seq<string>)
    requires RoutesLead(r)
    ensures OthersUntouched(r, Register(r, serial, clientID, names).0, clientID)
            <==> names != [] || !Taken(r.routes, clientID, clientID)
  {
    ClearedEffect(r, clientID);
    var c := Cleared(r, clientID);
    FirstTakenFinds(c.routes, names, clientID);
    var tunnels := if names == [] then [clientID] else names;
    PutRoutesEffect(c.routes, tunnels, Instance(serial, clientID, tunnels));
    assert forall name :: Taken(c.routes, name, clientID) <==> Taken(r.routes, name, clientID);
    if names == [] && Taken(r.routes, clientID, clientID) {
      assert clientID in tunnels;
      assert Register(r, serial, clientID, names).0.routes[clientID] == Route(clientID, clientID, serial);
    }
  }

  lemma ForgetEffect(r: Registry, clientID: string, client: Instance)
    requires RoutesLead(r)
    ensures var (after, done) := Forget(r, clientID, client);
            && RoutesLead(after) && OthersUntouched(r, after, clientID)
            && (done <==> clientID in r.clients && r.clients[clientID] == client)
            && (!done ==> after == r)
            && (done ==> clientID !in after.clients && forall name | name in after.routes :: after.routes[name].clientID != clientID)
  {
    if clientID in r.clients { RemoveEffect(r, clientID); }
  }

  /** One route of a registered client may be written at any moment. */
  lemma PutRouteLeads(r: Registry, client: Instance, name: string)
    requires RoutesLead(r) && client.clientID in r.clients && r.clients[client.clientID] == client && name in client.tunnels
    ensures RoutesLead(r.(routes := r.routes[name := RouteTo(client, name)]))
  {
  }

  /** A client that is not registered, and so has no routes, may be added at any moment. */
  lemma AddClientLeads(r: Registry, client: Instance)
    requires RoutesLead(r) && client.clientID !in r.clients
    ensures RoutesLead(r.(clients := r.clients[client.clientID := client]))
  {
  }

  // ----- runs -----

  datatype Op = DoRegister(clientID: string, names: seq<string>) | DoForget(clientID: string, client: Instance)

  /** Serial numbers are the positions in the run, so no two registrations share one. */
  function Run(ops: seq<Op>): Registry {
    if ops == [] then EMPTY
    else
      var before := Run(ops[..|ops| - 1]);
      match ops[|ops| - 1]
      case DoRegister(clientID, names) => Register(before, |ops|, clientID, names).0
      case DoForget(clientID, client) => Forget(before, clientID, client).0
  }

  /** Main result: after any run, late teardowns included, a route never leads nowhere. */
  lemma {:induction false} RoutesAlwaysLead(ops: seq<Op>, subdomain: string)
    ensures RoutesLead(Run(ops))
    ensures Resolve(Run(ops), subdomain).1.Some? ==>
              var (client, route) := Resolve(Run(ops), subdomain);
              client.Some? && client.value.clientID == route.value.clientID && subdomain in client.value.tunnels
    decreases |ops|
  {
    if ops != [] {
      var before := Run(ops[..|ops| - 1]);
      RoutesAlwaysLead(ops[..|ops| - 1], subdomain);
      match ops[|ops| - 1]
      case DoRegister(clientID, names) => RegisterEffect(before, |ops|, clientID, names);
      case DoForget(clientID, client) => ForgetEffect(before, clientID, client);
    }
  }

  /** At any point of any run, the registration that comes next leaves every other client's routes alone under exactly this condition. */
  lemma InterferenceOverRuns(ops: seq<Op>, clientID: string, names: seq<string>)
    ensures OthersUntouched(Run(ops), Run(ops + [DoRegister(clientID, names)]), clientID)
            <==> names != [] || !Taken(Run(ops).routes, clientID, clientID)
  {
    var all := ops + [DoRegister(clientID, names)];
    assert all[..|ops|] == ops;
    RoutesAlwaysLead(ops, clientID);
    hide Register, RoutesLead;
    RegistrationInterference(Run(ops), |all|, clientID, names);
  }

  /** Such a run: a client names its tunnel like another client's ID, and loses the route while it stays registered. */
  lemma RouteTakenOver()
    ensures var ops := [DoRegister("b", ["a"])];
            var after := Run(ops + [DoRegister("a", [])]);
            && Resolve(Run(ops), "a").0 == Some(Instance(1, "b", ["a"]))
            && "b" in after.clients && after.clients["b"] == Instance(1, "b", ["a"])
            && Resolve(after, "a") == (Some(Instance(2, "a", ["a"])), Some(Route("a", "a", 2)))
  {
    var first, second := DoRegister("b", ["a"]), DoRegister("a", []);
    assert ([first] + [second])[..1] == [first] && [first][..0] == [];
    var b, a := Instance(1, "b", ["a"]), Instance(2, "a", ["a"]);
    assert ["a"][1..] == [];
    assert FirstTaken(map[], ["a"], "b") == None && FirstTaken(map["a" := Route("b", "a", 1)], [], "a") == None;
    assert PutRoutes(map[], ["a"], b) == map["a" := Route("b", "a", 1)];
    assert PutRoutes(map["a" := Route("b", "a", 1)], ["a"], a) == map["a" := Route("a", "a", 2)];
    assert Run([first]) == Registry(map["b" := b], map["a" := Route("b", "a", 1)]);
    assert Run([first] + [second]) == Registry(map["b" := b, "a" := a], map["a" := Route("a", "a", 2)]);
  }

  /** An instance that is no longer registered never is again, so its late teardown changes nothing in any later run. */
  lemma {:induction false} StaleForgetOverRuns(ops: seq<Op>, more: seq<Op>, client: Instance)
    requires client.serial <= |ops|
    requires client.clientID in Run(ops).clients ==> Run(ops).clients[client.clientID] != client
    ensures Forget(Run(ops + more), client.clientID, client) == (Run(ops + more), false)
    decreases |more|
  {
    var all := ops + more;
    if more == [] {
      assert all == ops;
    } else {
      var prior := more[..|more| - 1];
      assert all[..|all| - 1] == ops + prior && all[|all| - 1] == more[|more| - 1];
      StaleForgetOverRuns(ops, prior, client);
      hide DeleteAllOwned, PutRoutes, FirstTaken;
    }
  }

  // ----- one registry write at a time, as a reader without the lifecycle lock sees them -----

  datatype Write =
    | DropRoute(name: string)
    | DropClient(clientID: string)
    | PutClient(client: Instance)
    | PutRoute(name: string, route: Route)

  function Put(r: Registry, w: Write): Registry {
    match w
    case DropRoute(name) => r.(routes := r.routes - {name})
    case DropClient(clientID) => r.(clients := r.clients - {clientID})
    case PutClient(client) => r.(clients := r.clients[client.clientID := client])
    case PutRoute(name, route) => r.(routes := r.routes[name := route])
  }

  function Replay(r: Registry, log: seq<Write>): Registry {
    if log == [] then r else Put(Replay(r, log[..|log| - 1]), log[|log| - 1])
  }

  function DeleteWrites(routes: map<string, Route>, names: seq<string>, clientID: string): seq<Write>
    decreases |names|
  {
    if names == [] then []
    else (if Owned(routes, names[0], clientID) then [DropRoute(names[0])] else [])
         + DeleteWrites(DeleteOwned(routes, names[0], clientID), names[1..], clientID)
  }

  function RemoveWrites(r: Registry, clientID: string): seq<Write>
    requires clientID in r.clients
  {
    DeleteWrites(r.routes, r.clients[clientID].tunnels, clientID) + [DropClient(clientID)]
  }

  function PutWrites(names: seq<string>, client: Instance): seq<Write> {
    if names == [] then [] else [PutRoute(names[0], RouteTo(client, names[0]))] + PutWrites(names[1..], client)
  }

  function ClearWrites(r: Registry, clientID: string): seq<Write> {
    if clientID in r.clients then RemoveWrites(r, clientID) else []
  }

  function PublishWrites(client: Instance): seq<Write> {
    [PutClient(client)] + PutWrites(client.tunnels, client)
  }

  function RegisterWrites(r: Registry, serial: nat, clientID: string, names: seq<string>): seq<Write> {
    ClearWrites(r, clientID) +
    match Register(r, serial, clientID, names).1
    case NameTaken(_) => []
    case Accepted(client) => PublishWrites(client)
  }

  function ForgetWrites(r: Registry, clientID: string, client: Instance): seq<Write> {
    if clientID in r.clients && r.clients[clientID] == client then RemoveWrites(r, clientID) else []
  }

  /** Every write of a run, in order. */
  function Log(ops: seq<Op>): seq<Write> {
    if ops == [] then []
    else
      var before := Run(ops[..|ops| - 1]);
      Log(ops[..|ops| - 1]) +
      match ops[|ops| - 1]
      case DoRegister(clientID, names) => RegisterWrites(before, |ops|, clientID, names)
      case DoForget(clientID, client) => ForgetWrites(before, clientID, client)
  }

  /** Every state reached while a log is replayed has its routes lead to clients. */
  ghost predicate Leads(r: Registry, log: seq<Write>) {
    forall k | 0 <= k <= |log| :: RoutesLead(Replay(r, log[..k]))
  }

  lemma {:induction false} ReplayAppend(r: Registry, a: seq<Write>, b: seq<Write>)
    ensures Replay(r, a + b) == Replay(Replay(r, a), b)
    decreases |b|
  {
    if b == [] {
      assert a + b == a;
    } else {
      assert (a + b)[..|a + b| - 1] == a + b[..|b| - 1];
      ReplayAppend(r, a, b[..|b| - 1]);
    }
  }

  lemma LeadsAppend(r: Registry, a: seq<Write>, b: seq<Write>)
    requires Leads(r, a) && Leads(Replay(r, a), b)
    ensures Leads(r, a + b)
  {
    hide RoutesLead, Replay;
    forall k | 0 <= k <= |a + b| ensures RoutesLead(Replay(r, (a + b)[..k])) {
      if k <= |a| {
        assert (a + b)[..k] == a[..k];
      } else {
        assert (a + b)[..k] == a + b[..k - |a|];
        ReplayAppend(r, a, b[..k - |a|]);
      }
    }
  }

  lemma LeadsOne(r: Registry, w: Write)
    requires RoutesLead(r) && RoutesLead(Put(r, w))
    ensures Leads(r, [w]) && Replay(r, [w]) == Put(r, w)
  {
    hide RoutesLead;
    assert [w][..0] == [] && [w][..1] == [w];
  }

  lemma LeadsNone(r: Registry)
    requires RoutesLead(r)
    ensures Leads(r, []) && Replay(r, []) == r
  {
  }

  lemma {:induction false} DeleteWritesReplay(r: Registry, names: seq<string>, clientID: string)
    requires RoutesLead(r)
    ensures var log := DeleteWrites(r.routes, names, clientID);
            Replay(r, log) == r.(routes := DeleteAllOwned(r.routes, names, clientID)) && Leads(r, log)
    decreases |names|
  {
    hide Leads, Replay;
    if names == [] {
      LeadsNone(r);
    } else {
      var next := r.(routes := DeleteOwned(r.routes, names[0], clientID));
      DropRouteLeads(r, names[0]);
      DeleteWritesReplay(next, names[1..], clientID);
      var rest := DeleteWrites(next.routes, names[1..], clientID);
      if Owned(r.routes, names[0], clientID) {
        LeadsOne(r, DropRoute(names[0]));
        ReplayAppend(r, [DropRoute(names[0])], rest);
        LeadsAppend(r, [DropRoute(names[0])], rest);
      } else {
        assert [] + rest == rest;
      }
    }
  }

  lemma DropRouteLeads(r: Registry, name: string)
    requires RoutesLead(r)
    ensures RoutesLead(r.(routes := r.routes - {name}))
  {
  }

  lemma ClearWritesReplay(r: Registry, clientID: string)
    requires RoutesLead(r)
    ensures Replay(r, ClearWrites(r, clientID)) == Cleared(r, clientID) && Leads(r, ClearWrites(r, clientID))
  {
    hide Leads, Replay, DeleteAllOwned, DeleteWrites;
    if clientID in r.clients {
      var names := r.clients[clientID].tunnels;
      var log := DeleteWrites(r.routes, names, clientID);
      DeleteWritesReplay(r, names, clientID);
      RemoveEffect(r, clientID);
      var mid := Replay(r, log);
      assert RoutesLead(mid) by { LeadsAtEnd(r, log); }
      LeadsOne(mid, DropClient(clientID));
      ReplayAppend(r, log, [DropClient(clientID)]);
      LeadsAppend(r, log, [DropClient(clientID)]);
    } else {
      LeadsNone(r);
    }
  }

  lemma LeadsAtEnd(r: Registry, log: seq<Write>)
    requires Leads(r, log)
    ensures RoutesLead(Replay(r, log))
  {
    assert log[..|log|] == log;
  }

  lemma {:induction false} PutWritesReplay(r: Registry, names: seq<string>, client: Instance)
    requires RoutesLead(r) && client.clientID in r.clients && r.clients[client.clientID] == client
    requires forall name | name in names :: name in client.tunnels
    ensures var log := PutWrites(names, client);
            Replay(r, log) == r.(routes := PutRoutes(r.routes, names, client)) && Leads(r, log)
    decreases |names|
  {
    hide Leads, Replay;
    if names == [] {
      LeadsNone(r);
    } else {
      var w := PutRoute(names[0], RouteTo(client, names[0]));
      assert names[0] in names;
      PutRouteLeads(r, client, names[0]);
      PutWritesReplay(Put(r, w), names[1..], client);
      LeadsOne(r, w);
      ReplayAppend(r, [w], PutWrites(names[1..], client));
      LeadsAppend(r, [w], PutWrites(names[1..], client));
    }
  }

  lemma PublishWritesReplay(r: Registry, client: Instance)
    requires RoutesLead(r) && client.clientID !in r.clients
    ensures Replay(r, PublishWrites(client)) == Registry(r.clients[client.clientID := client], PutRoutes(r.routes, client.tunnels, client))
    ensures Leads(r, PublishWrites(client))
  {
    hide Leads, Replay, PutWrites, PutRoutes, RoutesLead;
    AddClientLeads(r, client);
    LeadsOne(r, PutClient(client));
    PutWritesReplay(Put(r, PutClient(client)), client.tunnels, client);
    ReplayAppend(r, [PutClient(client)], PutWrites(client.tunnels, client));
    LeadsAppend(r, [PutClient(client)], PutWrites(client.tunnels, client));
  }

  lemma RegisterWritesReplay(r: Registry, serial: nat, clientID: string, names: seq<string>)
    requires RoutesLead(r)
    ensures var log := RegisterWrites(r, serial, clientID, names);
            Replay(r, log) == Register(r, serial, clientID, names).0 && Leads(r, log)
  {
    hide Leads, Replay, RoutesLead, PutRoutes, ClearWrites, PublishWrites, FirstTaken, Remove;
    ClearWritesReplay(r, clientID);
    ClearedEffect(r, clientID);
    var c := Cleared(r, clientID);
    match Register(r, serial, clientID, names).1
    case NameTaken(_) =>
      assert ClearWrites(r, clientID) + [] == ClearWrites(r, clientID);
    case Accepted(client) =>
      PublishWritesReplay(c, client);
      ReplayAppend(r, ClearWrites(r, clientID), PublishWrites(client));
      LeadsAppend(r, ClearWrites(r, clientID), PublishWrites(client));
  }

  lemma ForgetWritesReplay(r: Registry, clientID: string, client: Instance)
    requires RoutesLead(r)
    ensures var log := ForgetWrites(r, clientID, client);
            Replay(r, log) == Forget(r, clientID, client).0 && Leads(r, log)
  {
    hide Leads, Replay, RoutesLead, RemoveWrites;
    ClearWritesReplay(r, clientID);
    LeadsNone(r);
  }

  /** The log of a run leads to its result, and no state on the way has a route without its registration. */
  lemma {:induction false} LogReplays(ops: seq<Op>)
    ensures Replay(EMPTY, Log(ops)) == Run(ops) && Leads(EMPTY, Log(ops))
    decreases |ops|
  {
    hide Leads, Replay, RoutesLead, RegisterWrites, ForgetWrites;
    if ops == [] {
      EmptyLeads();
      LeadsNone(EMPTY);
    } else {
      var before, prior := Run(ops[..|ops| - 1]), Log(ops[..|ops| - 1]);
      LogReplays(ops[..|ops| - 1]);
      LeadsAtEnd(EMPTY, prior);
      match ops[|ops| - 1]
      case DoRegister(clientID, names) =>
        RegisterWritesReplay(before, |ops|, clientID, names);
        ReplayAppend(EMPTY, prior, RegisterWrites(before, |ops|, clientID, names));
        LeadsAppend(EMPTY, prior, RegisterWrites(before, |ops|, clientID, names));
      case DoForget(clientID, client) =>
        ForgetWritesReplay(before, clientID, client);
        ReplayAppend(EMPTY, prior, ForgetWrites(before, clientID, client));
        LeadsAppend(EMPTY, prior, ForgetWrites(before, clientID, client));
    }
  }

  lemma EmptyLeads()
    ensures RoutesLead(EMPTY)
  {
  }

  // ----- resolving in two reads -----

  /** resolveServerTunnel: the route is read at write i of the log, the client at write j, with anything in between. */
  function ResolveAcross(log: seq<Write>, i: nat, j: nat, subdomain: string): (Option<Instance>, Option<Route>)
    requires i <= j <= |log|
  {
    var first, second := Replay(EMPTY, log[..i]), Replay(EMPTY, log[..j]);
    if subdomain in first.routes then
      var route := first.routes[subdomain];
      (if route.clientID in second.clients then Some(second.clients[route.clientID]) else None, Some(route))
    else (if subdomain in second.clients then Some(second.clients[subdomain]) else None, None)
  }

  /** What two reads return: the route of the first, or none, and the client it names, or that of the name itself, of the second. */
  lemma AcrossExactly(log: seq<Write>, i: nat, j: nat, subdomain: string)
    requires i <= j <= |log|
    ensures var (client, route) := ResolveAcross(log, i, j, subdomain);
            var first, second := Replay(EMPTY, log[..i]), Replay(EMPTY, log[..j]);
            var id := if subdomain in first.routes then first.routes[subdomain].clientID else subdomain;
            && (route.Some? <==> subdomain in first.routes) && (route.Some? ==> route.value == first.routes[subdomain])
            && (client.Some? <==> id in second.clients) && (client.Some? ==> client.value == second.clients[id])
    ensures i == j ==> ResolveAcross(log, i, j, subdomain) == Resolve(Replay(EMPTY, log[..i]), subdomain)
  {
    hide Replay;
  }

  /** The write changes the client's entry. */
  predicate Touches(w: Write, clientID: string) {
    w == DropClient(clientID) || (w.PutClient? && w.client.clientID == clientID)
  }

  /** The last write to the client's entry between the two reads. */
  function LastTouch(log: seq<Write>, i: nat, j: nat, clientID: string): (w: Option<Write>)
    requires i <= j <= |log|
    ensures w.None? <==> forall k | i <= k < j :: !Touches(log[k], clientID)
    ensures w.Some? ==> Touches(w.value, clientID) && exists k :: i <= k < j && log[k] == w.value
  {
    if i == j then None else if Touches(log[j - 1], clientID) then Some(log[j - 1]) else LastTouch(log, i, j - 1, clientID)
  }

  lemma {:induction false} EntrySince(log: seq<Write>, i: nat, j: nat, clientID: string)
    requires i <= j <= |log|
    ensures var before, after := Replay(EMPTY, log[..i]).clients, Replay(EMPTY, log[..j]).clients;
            match LastTouch(log, i, j, clientID)
            case None => (clientID in after <==> clientID in before) && (clientID in before ==> after[clientID] == before[clientID])
            case Some(w) => if w.PutClient? then clientID in after && after[clientID] == w.client else clientID !in after
    decreases j - i
  {
    if i < j {
      EntrySince(log, i, j - 1, clientID);
      assert log[..j][..j - 1] == log[..j - 1] && log[..j][j - 1] == log[j - 1];
    }
  }

  /** Registrations are published with rising serial numbers. */
  ghost predicate Rising(log: seq<Write>, top: nat) {
    && (forall a | 0 <= a < |log| && log[a].PutClient? :: log[a].client.serial <= top)
    && (forall a, b | 0 <= a < b < |log| && log[a].PutClient? && log[b].PutClient? :: log[a].client.serial < log[b].client.serial)
  }

  predicate NoPut(log: seq<Write>) { forall k | 0 <= k < |log| :: !log[k].PutClient? }

  lemma {:induction false} DeleteWritesNoPut(routes: map<string, Route>, names: seq<string>, clientID: string)
    ensures NoPut(DeleteWrites(routes, names, clientID))
    decreases |names|
  {
    if names != [] { DeleteWritesNoPut(DeleteOwned(routes, names[0], clientID), names[1..], clientID); }
  }

  lemma {:induction false} PutWritesNoPut(names: seq<string>, client: Instance)
    ensures NoPut(PutWrites(names, client))
  {
    if names != [] { PutWritesNoPut(names[1..], client); }
  }

  lemma RisingQuiet(log: seq<Write>, more: seq<Write>, top: nat)
    requires Rising(log, top) && NoPut(more)
    ensures Rising(log + more, top + 1)
  {
  }

  lemma RisingPublish(log: seq<Write>, client: Instance, rest: seq<Write>, top: nat)
    requires Rising(log, top) && client.serial == top + 1 && NoPut(rest)
    ensures Rising(log + ([PutClient(client)] + rest), top + 1)
  {
  }

  lemma ClearWritesNoPut(r: Registry, clientID: string)
    ensures NoPut(ClearWrites(r, clientID))
  {
    if clientID in r.clients { DeleteWritesNoPut(r.routes, r.clients[clientID].tunnels, clientID); }
  }

  lemma {:induction false} LogRises(ops: seq<Op>)
    ensures Rising(Log(ops), |ops|)
    decreases |ops|
  {
    hide Rising, NoPut, DeleteWrites, PutWrites, Replay;
    if ops == [] {
      NothingRises();
    } else {
      var before, prior := Run(ops[..|ops| - 1]), Log(ops[..|ops| - 1]);
      LogRises(ops[..|ops| - 1]);
      match ops[|ops| - 1]
      case DoRegister(clientID, names) =>
        ClearWritesNoPut(before, clientID);
        match Register(before, |ops|, clientID, names).1 {
          case NameTaken(_) =>
            assert RegisterWrites(before, |ops|, clientID, names) == ClearWrites(before, clientID);
            RisingQuiet(prior, ClearWrites(before, clientID), |ops| - 1);
          case Accepted(client) =>
            RisingClearPublish(prior, ClearWrites(before, clientID), client, |ops| - 1);
        }
      case DoForget(clientID, client) =>
        ClearWritesNoPut(before, clientID);
        assert NoPut([]) by { EmptyNoPut(); }
        RisingQuiet(prior, ForgetWrites(before, clientID, client), |ops| - 1);
    }
  }

  lemma EmptyNoPut()
    ensures NoPut([])
  {
  }

  lemma NothingRises()
    ensures Rising([], 0)
  {
  }

  lemma RisingClearPublish(prior: seq<Write>, clear: seq<Write>, client: Instance, top: nat)
    requires Rising(prior, top) && NoPut(clear) && client.serial == top + 1
    ensures Rising(prior + (clear + PublishWrites(client)), top + 1)
  {
    PutWritesNoPut(client.tunnels, client);
    assert Rising(prior + clear, top);
    RisingPublish(prior + clear, client, PutWrites(client.tunnels, client), top);
    assert prior + (clear + PublishWrites(client)) == (prior + clear) + PublishWrites(client);
  }

  /** A registered client was published by an earlier write of the log. */
  lemma {:induction false} ClientWasPut(log: seq<Write>, i: nat, clientID: string)
    requires i <= |log| && clientID in Replay(EMPTY, log[..i]).clients
    ensures exists a :: 0 <= a < i && log[a] == PutClient(Replay(EMPTY, log[..i]).clients[clientID])
    decreases i
  {
    assert log[..i][..i - 1] == log[..i - 1] && log[..i][i - 1] == log[i - 1];
    if !Touches(log[i - 1], clientID) {
      ClientWasPut(log, i - 1, clientID);
      var a :| 0 <= a < i - 1 && log[a] == PutClient(Replay(EMPTY, log[..i - 1]).clients[clientID]);
      assert log[a] == PutClient(Replay(EMPTY, log[..i]).clients[clientID]);
    }
  }

  /**
   * Main result: what the two reads can return together. They show one registration exactly when
   * nobody wrote the client's entry in between; the client is missing exactly when the last such
   * write dropped it; and the client returned lists the name exactly when the last such write, if
   * any, registered it with that name.
   */
  lemma TwoReads(ops: seq<Op>, i: nat, j: nat, subdomain: string)
    requires i <= j <= |Log(ops)| && ResolveAcross(Log(ops), i, j, subdomain).1.Some?
    ensures var log := Log(ops);
            var (client, route) := ResolveAcross(log, i, j, subdomain);
            var last := LastTouch(log, i, j, route.value.clientID);
            && (client.Some? && client.value.serial == route.value.serial <==> last.None?)
            && (client.None? <==> last == Some(DropClient(route.value.clientID)))
            && (client.Some? && subdomain in client.value.tunnels <==>
                  last.None? || (last.value.PutClient? && subdomain in last.value.client.tunnels))
            && (last.None? ==> client.value.clientID == route.value.clientID)
  {
    LogReplays(ops);
    LogRises(ops);
    var log := Log(ops);
    var route := ResolveAcross(log, i, j, subdomain).1.value;
    LeadsAt(log, i, subdomain);
    EntrySince(log, i, j, route.clientID);
    ClientWasPut(log, i, route.clientID);
    hide Replay, Leads, Log, Run;
  }

  lemma LeadsAt(log: seq<Write>, i: nat, subdomain: string)
    requires Leads(EMPTY, log) && i <= |log| && subdomain in Replay(EMPTY, log[..i]).routes
    ensures var r := Replay(EMPTY, log[..i]);
            var route := r.routes[subdomain];
            && route.clientID in r.clients && subdomain in r.clients[route.clientID].tunnels
            && route.serial == r.clients[route.clientID].serial && r.clients[route.clientID].clientID == route.clientID
  {
    assert RoutesLead(Replay(EMPTY, log[..i]));
    hide Replay;
  }

  /** A run in which the route is found and its client is gone by the second read. */
  lemma ReadsCanDisagree()
    ensures var ops := [DoRegister("a", ["t"]), DoForget("a", Instance(1, "a", ["t"]))];
            Log(ops) == [PutClient(Instance(1, "a", ["t"])), PutRoute("t", Route("a", "t", 1)), DropRoute("t"), DropClient("a")]
            && ResolveAcross(Log(ops), 2, 4, "t") == (None, Some(Route("a", "t", 1)))
  {
    var client := Instance(1, "a", ["t"]);
    var first, ops := [DoRegister("a", ["t"])], [DoRegister("a", ["t"]), DoForget("a", client)];
    assert ops[..1] == first && first[..0] == [];
    assert PutWrites(["t"], client) == [PutRoute("t", Route("a", "t", 1))] by { assert ["t"][1..] == []; }
    assert FirstTaken(map[], ["t"], "a") == None by { assert ["t"][1..] == []; }
    assert PutRoutes(map[], ["t"], client) == map["t" := Route("a", "t", 1)] by { assert ["t"][1..] == []; }
    assert Run(first) == Registry(map["a" := client], map["t" := Route("a", "t", 1)]);
    assert Log(first) == [PutClient(client), PutRoute("t", Route("a", "t", 1))];
    assert DeleteWrites(Run(first).routes, ["t"], "a") == [DropRoute("t")] by { assert ["t"][1..] == []; }
    assert Log(ops) == Log(first) + [DropRoute("t"), DropClient("a")];
    var log := Log(ops);
    assert log[..4] == log && log[..3][..2] == log[..2] && log[..4][..3] == log[..3] && log[..2][..1] == log[..1] && log[..1][..0] == [];
    assert Replay(EMPTY, log[..1]) == Registry(map["a" := client], map[]);
    assert Replay(EMPTY, log[..2]) == Registry(map["a" := client], map["t" := Route("a", "t", 1)]);
    assert Replay(EMPTY, log[..3]) == Registry(map["a" := client], map[]);
    assert Replay(EMPTY, log[..4]) == EMPTY;
  }

  // ----- the registries, written one entry at a time -----

  class Server {
    var clients: map<string, Instance>
    var routes: map<string, Route>
    var serial: nat
    /** Every write so far; a reader without the lifecycle lock may see the state after any of them. */
    ghost var log: seq<Write>

    ghost function State(): Registry
      reads this
    {
      Registry(clients, routes)
    }

    ghost predicate Valid()
      reads this
    {
      RoutesLead(State()) && State() == Replay(EMPTY, log) && Leads(EMPTY, log)
    }

    constructor ()
      ensures Valid() && State() == EMPTY && log == []
    {
      clients, routes, serial, log := map[], map[], 0, [];
    }

    /** Delete a client's own routes one at a time, then its entry. */
    method RemoveClient(clientID: string)
      requires Valid() && clientID in clients
      modifies this`clients, this`routes, this`log
      ensures Valid()
      ensures State() == Remove(old(State()), clientID) && log == old(log) + RemoveWrites(old(State()), clientID)
    {
      hide RoutesLead, Leads, Replay;
      ghost var before := State();
      ClearWritesReplay(before, clientID);
      RemoveEffect(before, clientID);
      var tunnels := clients[clientID].tunnels;
      assert log + DeleteWrites(routes, tunnels, clientID) == old(log) + DeleteWrites(old(routes), tunnels, clientID);
      for i := 0 to |tunnels|
        invariant clients == old(clients)
        invariant DeleteAllOwned(old(routes), tunnels, clientID) == DeleteAllOwned(routes, tunnels[i..], clientID)
        invariant log + DeleteWrites(routes, tunnels[i..], clientID) == old(log) + DeleteWrites(old(routes), tunnels, clientID)
      {
        assert tunnels[i..][1..] == tunnels[i + 1..] && tunnels[i..][0] == tunnels[i];
        if tunnels[i] in routes && routes[tunnels[i]].clientID == clientID {
          routes := routes - {tunnels[i]};
          log := log + [DropRoute(tunnels[i])];
        }
      }
      assert tunnels[|tunnels|..] == [];
      assert log == old(log) + DeleteWrites(old(routes), tunnels, clientID);
      clients := clients - {clientID};
      log := log + [DropClient(clientID)];
      assert log == old(log) + RemoveWrites(before, clientID);
      ReplayAppend(EMPTY, old(log), RemoveWrites(before, clientID));
      LeadsAppend(EMPTY, old(log), RemoveWrites(before, clientID));
    }

    method ForgetServerClient(clientID: string, client: Instance) returns (done: bool)
      requires Valid()
      modifies this`clients, this`routes, this`log
      ensures Valid()
      ensures (State(), done) == Forget(old(State()), clientID, client)
      ensures log == old(log) + ForgetWrites(old(State()), clientID, client)
    {
      if clientID !in clients || clients[clientID] != client {
        return false;
      }
      RemoveClient(clientID);
      return true;
    }

    /** The first requested name that leads to another client. */
    method FindTaken(clientID: string, names: seq<string>) returns (taken: Option<string>)
      ensures taken == FirstTaken(routes, names, clientID)
    {
      for i := 0 to |names|
        invariant FirstTaken(routes, names, clientID) == FirstTaken(routes, names[i..], clientID)
      {
        assert names[i..][1..] == names[i + 1..];
        if names[i] in routes && routes[names[i]].clientID != clientID {
          return Some(names[i]);
        }
      }
      return None;
    }

    /** Publish a client that is not registered: its entry first, then its routes one at a time. */
    method PublishClient(client: Instance)
      requires Valid() && client.clientID !in clients
      modifies this`clients, this`routes, this`log
      ensures Valid()
      ensures clients == old(clients)[client.clientID := client] && routes == PutRoutes(old(routes), client.tunnels, client)
      ensures log == old(log) + PublishWrites(client)
    {
      hide RoutesLead, Leads, Replay;
      ghost var before := State();
      PublishWritesReplay(before, client);
      clients := clients[client.clientID := client];
      log := log + [PutClient(client)];
      var tunnels := client.tunnels;
      assert log + PutWrites(tunnels, client) == old(log) + PublishWrites(client);
      for i := 0 to |tunnels|
        invariant clients == old(clients)[client.clientID := client]
        invariant PutRoutes(old(routes), tunnels, client) == PutRoutes(routes, tunnels[i..], client)
        invariant log + PutWrites(tunnels[i..], client) == old(log) + PublishWrites(client)
      {
        assert tunnels[i..][1..] == tunnels[i + 1..] && tunnels[i..][0] == tunnels[i];
        routes := routes[tunnels[i] := RouteTo(client, tunnels[i])];
        log := log + [PutRoute(tunnels[i], RouteTo(client, tunnels[i]))];
      }
      assert tunnels[|tunnels|..] == [];
      assert log == old(log) + PublishWrites(client);
      ReplayAppend(EMPTY, old(log), PublishWrites(client));
      LeadsAppend(EMPTY, old(log), PublishWrites(client));
      LeadsAtEnd(EMPTY, log);
    }

    /** Clean up a previous registration, check the names, then publish the client before its routes. */
    method RegisterClient(clientID: string, names: seq<string>) returns (result: Registered)
      requires Valid()
      modifies this
      ensures Valid()
      ensures serial == old(serial) + 1
      ensures (State(), result) == Register(old(State()), serial, clientID, names)
      ensures log == old(log) + RegisterWrites(old(State()), serial, clientID, names)
    {
      hide RoutesLead, PutRoutes, FirstTaken, Remove, Leads, Replay, RemoveWrites, PublishWrites;
      serial := serial + 1;
      ClearedEffect(old(State()), clientID);
      if clientID in clients {
        RemoveClient(clientID);
      }
      assert log == old(log) + ClearWrites(old(State()), clientID);
      var taken := FindTaken(clientID, names);
      if taken.Some? {
        return NameTaken(taken.value);
      }
      var client := Instance(serial, clientID, if names == [] then [clientID] else names);
      PublishClient(client);
      return Accepted(client);
    }
  }
}
