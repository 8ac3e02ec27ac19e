/**
 * networkHandler.js, handleSelfIp and its helpers: self IPs cannot be modified, so they are deleted and
 * re-created, together with everything that depends on them.
 *
 * Each step is written twice: as a function of the store, which the theorems are about, and as the
 * imperative code, which is proved to perform exactly that function.
 */
module SelfIpHandler {
  import opened Prelude
  import opened SelfIpStore

  /** One self IP of the parsed declaration; a deleted one has no name. */
  datatype Declared = Declared(
    tenant: string, name: string, vlan: string, address: string, trafficGroup: string,
    allowService: string, fwEnforcedPolicy: Option<string>, fwStagedPolicy: Option<string>)

  function FirewallPolicy(tenant: string, policy: Option<string>, afm: bool): Option<string>
  {
    if policy.Some? && policy.value != "" then Some("/" + tenant + "/" + policy.value)
    else if afm then Some("none") else None
  }

  /** The request body for a declared self IP; the device chooses the remaining properties. */
  function BodyOf(d: Declared, afm: bool): SelfIp
  {
    Item(Key(d.tenant, d.name), SelfIpBody(
      if d.vlan != "" && d.vlan[0] == '/' then d.vlan else "/" + d.tenant + "/" + d.vlan,
      d.address, d.trafficGroup, d.allowService,
      FirewallPolicy(d.tenant, d.fwEnforcedPolicy, afm), FirewallPolicy(d.tenant, d.fwStagedPolicy, afm), ""))
  }

  predicate IsFloatingBody(s: SelfIp) { s.body.trafficGroup != "" && !IsLocal(s) }

  function Bodies(declared: seq<Declared>, afm: bool, floating: bool): seq<SelfIp>
  {
    if declared == [] then []
    else
      var rest := Bodies(declared[..|declared| - 1], afm, floating);
      var d := declared[|declared| - 1];
      if d.name != "" && IsFloatingBody(BodyOf(d, afm)) == floating then rest + [BodyOf(d, afm)] else rest
  }

  // ---------------------------------------------------------------- what a deletion pass finds

  function Existing(bodies: seq<SelfIp>, store: Store): seq<SelfIp>
  {
    if bodies == [] then []
    else
      var rest := Existing(bodies[..|bodies| - 1], store);
      var b := bodies[|bodies| - 1];
      if b.key in KeysOf(store.selfIps) then rest + [b] else rest
  }

  /** elementMatches compares names only, not partitions. */
  predicate HasName<T>(xs: seq<Item<T>>, name: string)
  {
    exists i | 0 <= i < |xs| :: xs[i].key.name == name
  }

  predicate BlocksRoute(net: Subnet, doomed: seq<SelfIp>, r: Route)
  {
    exists i | 0 <= i < |doomed| :: GatewayInSubnet(net, r, doomed[i])
  }

  function MatchingRoutes(net: Subnet, doomed: seq<SelfIp>, routes: seq<Route>): seq<Route>
  {
    if routes == [] then []
    else
      var rest := MatchingRoutes(net, doomed, routes[..|routes| - 1]);
      var r := routes[|routes| - 1];
      if BlocksRoute(net, doomed, r) && !HasName(rest, r.key.name) then rest + [r] else rest
  }

  predicate SharesLocalSubnet(net: Subnet, doomed: seq<SelfIp>, f: SelfIp)
  {
    !IsLocal(f) && exists i | 0 <= i < |doomed| :: IsLocal(doomed[i]) && SharesSubnet(net, f, doomed[i])
  }

  function MatchingFloats(net: Subnet, doomed: seq<SelfIp>, selfIps: seq<SelfIp>): seq<SelfIp>
  {
    if selfIps == [] then []
    else
      var rest := MatchingFloats(net, doomed, selfIps[..|selfIps| - 1]);
      var f := selfIps[|selfIps| - 1];
      if SharesLocalSubnet(net, doomed, f) && !HasName(rest, f.key.name) then rest + [f] else rest
  }

  function MatchingSync(net: Subnet, doomed: seq<SelfIp>, syncIp: string): Option<string>
  {
    if exists i | 0 <= i < |doomed| :: IsSyncAddress(net, syncIp, doomed[i]) then Some(syncIp) else None
  }

  predicate AlreadyDeleting(bodies: seq<SelfIp>, f: SelfIp)
  {
    exists i | 0 <= i < |bodies| ::
      bodies[i].body.address == f.body.address && bodies[i].body.trafficGroup == f.body.trafficGroup
  }

  function NotAlreadyDeleting(bodies: seq<SelfIp>, floats: seq<SelfIp>): seq<SelfIp>
  {
    if floats == [] then []
    else
      var rest := NotAlreadyDeleting(bodies, floats[..|floats| - 1]);
      var f := floats[|floats| - 1];
      if AlreadyDeleting(bodies, f) then rest else rest + [f]
  }

  /** One call of deleteExistingSelfIps: its requests, and what has to be put back later. */
  datatype Pass = Pass(requests: seq<Request>, routes: seq<Route>, floats: seq<SelfIp>, syncIp: Option<string>)

  function DeletePass(net: Subnet, bodies: seq<SelfIp>, store: Store): Pass
  {
    var existing := Existing(bodies, store);
    var routes := MatchingRoutes(net, existing, store.routes);
    var floats := MatchingFloats(net, existing, store.selfIps);
    var sync := MatchingSync(net, existing + floats, store.syncIp);
    Pass(
      RouteDeletes(routes) + (ClearSync(sync) + (SelfIpDeletes(floats) + SelfIpDeletes(existing))),
      routes, NotAlreadyDeleting(bodies, floats), sync)
  }

  function ClearSync(sync: Option<string>): seq<Request>
  {
    if sync.Some? then [SetSyncIp("none")] else []
  }

  function RestoreSync(sync: Option<string>): seq<Request>
  {
    if sync.Some? then [SetSyncIp(sync.value)] else []
  }

  /** A self IP put back: the eight listed properties survive, the others return to device defaults. */
  function Restored(s: SelfIp): SelfIp { s.(body := s.body.(other := "")) }

  function RestoredRoute(r: Route): Route { r.(body := r.body.(other := "")) }

  function RestoredAll(xs: seq<SelfIp>): seq<SelfIp>
  {
    seq(|xs|, i requires 0 <= i < |xs| => Restored(xs[i]))
  }

  function RestoredRoutes(xs: seq<Route>): seq<Route>
  {
    seq(|xs|, i requires 0 <= i < |xs| => RestoredRoute(xs[i]))
  }

  function FirstOf(a: Option<string>, b: Option<string>): Option<string> { if a.Some? then a else b }

  /** Local-only self IPs, then floating ones, then what has to be put back: self IPs, config-sync IP, routes. */
  function Creates(local: seq<SelfIp>, floating: seq<SelfIp>, floats: seq<SelfIp>, sync: Option<string>,
                   routes: seq<Route>): seq<Request>
  {
    SelfIpCreates(local) + (SelfIpCreates(floating) + (SelfIpCreates(RestoredAll(floats))
      + (RestoreSync(sync) + RouteCreates(RestoredRoutes(routes)))))
  }

  function CreatePhase(local: seq<SelfIp>, floating: seq<SelfIp>, p1: Pass, p2: Pass): seq<Request>
  {
    Creates(local, floating, p1.floats + p2.floats, FirstOf(p1.syncIp, p2.syncIp), p1.routes + p2.routes)
  }

  /** The complete run of handleSelfIp, or None when the device refuses a request and the handler throws. */
  datatype Outcome = Outcome(deletes: seq<Request>, creates: seq<Request>, store: Store)

  function Handle(net: Subnet, local: seq<SelfIp>, floating: seq<SelfIp>, store: Store): Option<Outcome>
  {
    var p1 := DeletePass(net, floating, store);
    var s1 := Run(store, p1.requests);
    if s1.None? then None else
    var p2 := DeletePass(net, local, s1.value);
    var s2 := Run(s1.value, p2.requests);
    if s2.None? then None else
    var creates := CreatePhase(local, floating, p1, p2);
    var s3 := Run(s2.value, creates);
    if s3.None? then None else Some(Outcome(p1.requests + p2.requests, creates, s3.value))
  }

  // ---------------------------------------------------------------- the code

  class BigIp {
    const net: Subnet
    var selfIps: seq<SelfIp>
    var routes: seq<Route>
    var configSyncIp: string
    /** Every request the device has accepted so far. */
    ghost var trace: seq<Request>

    constructor (net: Subnet, store: Store)
      ensures this.net == net && Now() == store && trace == []
    {
      this.net := net;
      selfIps, routes, configSyncIp, trace := store.selfIps, store.routes, store.syncIp, [];
    }

    function Now(): Store
      reads this
    {
      Store(selfIps, routes, configSyncIp)
    }

    method Send(request: Request) returns (ok: bool)
      modifies this
      ensures ok <==> Step(old(Now()), request).Some?
      ensures ok ==> Some(Now()) == Step(old(Now()), request) && trace == old(trace) + [request]
      ensures !ok ==> Now() == old(Now()) && trace == old(trace)
    {
      ok := true;
      match request {
        case DeleteRoute(k) =>
          ok := k in KeysOf(routes);
          if ok { routes := Without(routes, {k}); }
        case DeleteSelfIp(k) =>
          ok := k in KeysOf(selfIps);
          if ok { selfIps := Without(selfIps, {k}); }
        case CreateSelfIp(s) =>
          ok := s.key !in KeysOf(selfIps);
          if ok { selfIps := selfIps + [s]; }
        case CreateRoute(r) =>
          ok := r.key !in KeysOf(routes);
          if ok { routes := routes + [r]; }
        case SetSyncIp(ip) =>
          configSyncIp := ip;
      }
      if ok {
        trace := trace + [request];
      }
    }

    /** `Promise.all` over a list of requests; rejects at the first refusal. */
    method SendAll(requests: seq<Request>) returns (ok: bool)
      modifies this
      ensures ok <==> Run(old(Now()), requests).Some?
      ensures ok ==> Some(Now()) == Run(old(Now()), requests) && trace == old(trace) + requests
    {
      ghost var start := Now();
      assert requests[..0] == [];
      for i := 0 to |requests|
        invariant Run(start, requests[..i]) == Some(Now())
        invariant trace == old(trace) + requests[..i]
      {
        assert requests == requests[..i] + requests[i..];
        RunConcat(start, requests[..i], requests[i..]);
        assert requests[..i + 1] == requests[..i] + [requests[i]];
        RunConcat(start, requests[..i], [requests[i]]);
        assert [requests[i]][1..] == [];
        ok := Send(requests[i]);
        if !ok {
          return false;
        }
      }
      assert requests[..|requests|] == requests;
      return true;
    }

    /** SendAll as the first section of a longer plan. */
    method SendNext(requests: seq<Request>, ghost rest: seq<Request>) returns (ok: bool)
      modifies this
      ensures ok ==> Run(old(Now()), requests + rest) == Run(Now(), rest)
      ensures ok ==> trace + rest == old(trace) + (requests + rest)
      ensures ok ==> Run(old(Now()), requests) == Some(Now())
      ensures !ok ==> Run(old(Now()), requests + rest).None?
    {
      RunConcat(Now(), requests, rest);
      ok := SendAll(requests);
      assert ok ==> trace + rest == old(trace) + (requests + rest);
    }

    method FindMatchingRoutes(selfIpsToDelete: seq<SelfIp>) returns (matchingRoutes: seq<Route>)
      ensures matchingRoutes == MatchingRoutes(net, selfIpsToDelete, routes)
    {
      matchingRoutes := [];
      for i := 0 to |routes|
        invariant matchingRoutes == MatchingRoutes(net, selfIpsToDelete, routes[..i])
      {
        assert routes[..i + 1][..i] == routes[..i];
        ghost var before := matchingRoutes;
        for j := 0 to |selfIpsToDelete|
          invariant matchingRoutes ==
            if BlocksRoute(net, selfIpsToDelete[..j], routes[i]) && !HasName(before, routes[i].key.name)
            then before + [routes[i]] else before
        {
          BlocksRouteGrows(net, selfIpsToDelete, j, routes[i]);
          HasNameAppend(before, routes[i]);
          if GatewayInSubnet(net, routes[i], selfIpsToDelete[j]) {
            if !HasName(matchingRoutes, routes[i].key.name) {
              matchingRoutes := matchingRoutes + [routes[i]];
            }
          }
        }
        assert selfIpsToDelete[..|selfIpsToDelete|] == selfIpsToDelete;
      }
      assert routes[..|routes|] == routes;
    }

    method FindMatchingFloatingSelfIps(selfIpsToDelete: seq<SelfIp>) returns (matchingSelfIps: seq<SelfIp>)
      ensures matchingSelfIps == MatchingFloats(net, selfIpsToDelete, selfIps)
    {
      matchingSelfIps := [];
      for i := 0 to |selfIps|
        invariant matchingSelfIps == MatchingFloats(net, selfIpsToDelete, selfIps[..i])
      {
        assert selfIps[..i + 1][..i] == selfIps[..i];
        ghost var before := matchingSelfIps;
        if !IsLocal(selfIps[i]) {
          for j := 0 to |selfIpsToDelete|
            invariant matchingSelfIps ==
              if SharesLocalSubnet(net, selfIpsToDelete[..j], selfIps[i]) && !HasName(before, selfIps[i].key.name)
              then before + [selfIps[i]] else before
          {
            SharesLocalGrows(net, selfIpsToDelete, j, selfIps[i]);
            HasNameAppend(before, selfIps[i]);
            if IsLocal(selfIpsToDelete[j]) {
              if SharesSubnet(net, selfIps[i], selfIpsToDelete[j]) {
                if !HasName(matchingSelfIps, selfIps[i].key.name) {
                  matchingSelfIps := matchingSelfIps + [selfIps[i]];
                }
              }
            }
          }
          assert selfIpsToDelete[..|selfIpsToDelete|] == selfIpsToDelete;
        }
      }
      assert selfIps[..|selfIps|] == selfIps;
    }

    method FindMatchingConfigSyncIp(selfIpsToDelete: seq<SelfIp>) returns (matching: Option<string>)
      ensures matching == MatchingSync(net, selfIpsToDelete, configSyncIp)
    {
      matching := None;
      if exists i | 0 <= i < |selfIpsToDelete| :: IsSyncAddress(net, configSyncIp, selfIpsToDelete[i]) {
        matching := Some(configSyncIp);
      }
    }

    method FindExisting(selfIpBodies: seq<SelfIp>) returns (existingSelfIps: seq<SelfIp>)
      ensures existingSelfIps == Existing(selfIpBodies, Now())
    {
      existingSelfIps := [];
      for i := 0 to |selfIpBodies|
        invariant existingSelfIps == Existing(selfIpBodies[..i], Now())
      {
        assert selfIpBodies[..i + 1][..i] == selfIpBodies[..i];
        if selfIpBodies[i].key in KeysOf(selfIps) {
          existingSelfIps := existingSelfIps + [selfIpBodies[i]];
        }
      }
      assert selfIpBodies[..|selfIpBodies|] == selfIpBodies;
    }

    /** The deletion pass; `ok` is false when the returned promise rejects. */
    method DeleteExistingSelfIps(selfIpBodies: seq<SelfIp>)
      returns (ok: bool, deletedRoutes: seq<Route>, deletedFloatingSelfIps: seq<SelfIp>,
               deletedConfigSyncIp: Option<string>)
      modifies this
      ensures
        var pass := DeletePass(net, selfIpBodies, old(Now()));
        && (ok <==> Run(old(Now()), pass.requests).Some?)
        && (ok ==>
          && Some(Now()) == Run(old(Now()), pass.requests)
          && trace == old(trace) + pass.requests
          && deletedRoutes == pass.routes
          && deletedFloatingSelfIps == pass.floats
          && deletedConfigSyncIp == pass.syncIp)
    {
      deletedFloatingSelfIps, deletedConfigSyncIp := [], None;
      var existingSelfIps := FindExisting(selfIpBodies);
      var matchingRoutes := FindMatchingRoutes(existingSelfIps);
      ghost var start := Now();
      ghost var floats := MatchingFloats(net, existingSelfIps, selfIps);
      ghost var sync := MatchingSync(net, existingSelfIps + floats, configSyncIp);
      ghost var last := SelfIpDeletes(floats) + SelfIpDeletes(existingSelfIps);
      ok := SendNext(RouteDeletes(matchingRoutes), ClearSync(sync) + last);
      deletedRoutes := matchingRoutes;
      if ok {
        RouteDeletesKeep(start, matchingRoutes);
        var matchingSelfIps := FindMatchingFloatingSelfIps(existingSelfIps);
        deletedConfigSyncIp := FindMatchingConfigSyncIp(existingSelfIps + matchingSelfIps);
        ok := SendNext(ClearSync(deletedConfigSyncIp), last);
        if ok {
          deletedFloatingSelfIps := KeepNotAlreadyDeleting(selfIpBodies, matchingSelfIps);
          ok := SendNext(SelfIpDeletes(matchingSelfIps), SelfIpDeletes(existingSelfIps));
          if ok {
            ok := SendAll(SelfIpDeletes(existingSelfIps));
          }
        }
      }
    }

    /** Which of the floating self IPs being deleted have to be put back. */
    method KeepNotAlreadyDeleting(selfIpBodies: seq<SelfIp>, matchingSelfIps: seq<SelfIp>)
      returns (deletedFloatingSelfIps: seq<SelfIp>)
      ensures deletedFloatingSelfIps == NotAlreadyDeleting(selfIpBodies, matchingSelfIps)
    {
      deletedFloatingSelfIps := [];
      for i := 0 to |matchingSelfIps|
        invariant deletedFloatingSelfIps == NotAlreadyDeleting(selfIpBodies, matchingSelfIps[..i])
      {
        assert matchingSelfIps[..i + 1][..i] == matchingSelfIps[..i];
        if !AlreadyDeleting(selfIpBodies, matchingSelfIps[i]) {
          deletedFloatingSelfIps := deletedFloatingSelfIps + [matchingSelfIps[i]];
        }
      }
      assert matchingSelfIps[..|matchingSelfIps|] == matchingSelfIps;
    }

    /** handleSelfIp: `ok` is false when it throws. */
    method HandleSelfIp(declared: seq<Declared>, afmProvisioned: bool) returns (ok: bool)
      modifies this
      ensures
        var outcome := Handle(net, Bodies(declared, afmProvisioned, false), Bodies(declared, afmProvisioned, true),
                              old(Now()));
        && (ok <==> outcome.Some?)
        && (ok ==>
          && Now() == outcome.value.store
          && trace == old(trace) + outcome.value.deletes + outcome.value.creates)
    {
      ghost var start, sent := Now(), trace;
      var nonFloatingBodies, floatingBodies := SortBodies(declared, afmProvisioned);
      ghost var p1 := DeletePass(net, floatingBodies, start);
      var selfIpsToRecreate, routesToRecreate, configSyncIpToRecreate;
      ok, routesToRecreate, selfIpsToRecreate, configSyncIpToRecreate := DeleteExistingSelfIps(floatingBodies);
      if ok {
        ghost var p2 := DeletePass(net, nonFloatingBodies, Now());
        var moreRoutes, moreSelfIps, moreSync;
        ok, moreRoutes, moreSelfIps, moreSync := DeleteExistingSelfIps(nonFloatingBodies);
        if ok {
          Associative(sent, p1.requests, p2.requests);
          selfIpsToRecreate := selfIpsToRecreate + moreSelfIps;
          routesToRecreate := routesToRecreate + moreRoutes;
          configSyncIpToRecreate := FirstOf(configSyncIpToRecreate, moreSync);
          ok := CreateAll(nonFloatingBodies, floatingBodies, selfIpsToRecreate, configSyncIpToRecreate,
                          routesToRecreate);
        }
      }
    }

    method SortBodies(declared: seq<Declared>, afmProvisioned: bool)
      returns (nonFloatingBodies: seq<SelfIp>, floatingBodies: seq<SelfIp>)
      ensures nonFloatingBodies == Bodies(declared, afmProvisioned, false)
      ensures floatingBodies == Bodies(declared, afmProvisioned, true)
    {
      nonFloatingBodies, floatingBodies := [], [];
      for i := 0 to |declared|
        invariant nonFloatingBodies == Bodies(declared[..i], afmProvisioned, false)
        invariant floatingBodies == Bodies(declared[..i], afmProvisioned, true)
      {
        assert declared[..i + 1][..i] == declared[..i];
        if declared[i].name != "" {
          var selfIpBody := BodyOf(declared[i], afmProvisioned);
          if IsFloatingBody(selfIpBody) {
            floatingBodies := floatingBodies + [selfIpBody];
          } else {
            nonFloatingBodies := nonFloatingBodies + [selfIpBody];
          }
        }
      }
      assert declared[..|declared|] == declared;
    }

    /** The creation half of handleSelfIp. */
    method CreateAll(nonFloatingBodies: seq<SelfIp>, floatingBodies: seq<SelfIp>, selfIpsToRecreate: seq<SelfIp>,
                     configSyncIpToRecreate: Option<string>, routesToRecreate: seq<Route>) returns (ok: bool)
      modifies this
      ensures
        var creates := Creates(nonFloatingBodies, floatingBodies, selfIpsToRecreate, configSyncIpToRecreate,
                               routesToRecreate);
        && (ok <==> Run(old(Now()), creates).Some?)
        && (ok ==> Some(Now()) == Run(old(Now()), creates) && trace == old(trace) + creates)
    {
      ghost var c5 := RouteCreates(RestoredRoutes(routesToRecreate));
      ghost var c4 := RestoreSync(configSyncIpToRecreate) + c5;
      ghost var c3 := SelfIpCreates(RestoredAll(selfIpsToRecreate)) + c4;
      ok := SendNext(SelfIpCreates(nonFloatingBodies), SelfIpCreates(floatingBodies) + c3);
      if ok { ok := SendNext(SelfIpCreates(floatingBodies), c3); }
      if ok { ok := SendNext(SelfIpCreates(RestoredAll(selfIpsToRecreate)), c4); }
      if ok { ok := SendNext(RestoreSync(configSyncIpToRecreate), c5); }
      if ok { ok := SendAll(RouteCreates(RestoredRoutes(routesToRecreate))); }
    }
  }

  lemma {:induction false} RouteDeletesKeep(store: Store, xs: seq<Route>)
    requires Run(store, RouteDeletes(xs)).Some?
    ensures Run(store, RouteDeletes(xs)).value.selfIps == store.selfIps
    ensures Run(store, RouteDeletes(xs)).value.syncIp == store.syncIp
    decreases |xs|
  {
    if xs != [] {
      assert RouteDeletes(xs)[1..] == RouteDeletes(xs[1..]);
      RouteDeletesKeep(Step(store, RouteDeletes(xs)[0]).value, xs[1..]);
    }
  }

  lemma HasNameAppend<T>(xs: seq<Item<T>>, x: Item<T>)
    ensures HasName(xs + [x], x.key.name)
  {
    assert (xs + [x])[|xs|] == x;
  }

  lemma SharesLocalGrows(net: Subnet, doomed: seq<SelfIp>, j: nat, f: SelfIp)
    requires j < |doomed| && !IsLocal(f)
    ensures SharesLocalSubnet(net, doomed[..j + 1], f)
      <==> SharesLocalSubnet(net, doomed[..j], f) || (IsLocal(doomed[j]) && SharesSubnet(net, f, doomed[j]))
  {
    if SharesLocalSubnet(net, doomed[..j], f) {
      var i :| 0 <= i < j && IsLocal(doomed[..j][i]) && SharesSubnet(net, f, doomed[..j][i]);
      assert doomed[..j + 1][i] == doomed[..j][i];
    }
    assert doomed[..j + 1][j] == doomed[j];
    assert forall i | 0 <= i < j :: doomed[..j + 1][i] == doomed[..j][i];
  }

  lemma Associative<T>(a: seq<T>, b: seq<T>, c: seq<T>)
    ensures a + b + c == a + (b + c)
  {
  }

  lemma BlocksRouteGrows(net: Subnet, doomed: seq<SelfIp>, j: nat, r: Route)
    requires j < |doomed|
    ensures BlocksRoute(net, doomed[..j + 1], r)
      <==> BlocksRoute(net, doomed[..j], r) || GatewayInSubnet(net, r, doomed[j])
  {
    if BlocksRoute(net, doomed[..j], r) {
      var i :| 0 <= i < j && GatewayInSubnet(net, r, doomed[..j][i]);
      assert doomed[..j + 1][i] == doomed[..j][i];
    }
    assert doomed[..j + 1][j] == doomed[j];
    assert forall i | 0 <= i < j :: doomed[..j + 1][i] == doomed[..j][i];
  }
}
