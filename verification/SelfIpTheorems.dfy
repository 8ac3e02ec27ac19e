/** What handleSelfIp guarantees about the device: conservation, legality of every request, creation order. */
module SelfIpTheorems {
  import opened Prelude
  import opened SelfIpStore
  import opened SelfIpHandler

  /** Full paths are unique, every traffic group is set and the bodies are sorted by kind. */
  predicate WellFormed(local: seq<SelfIp>, floating: seq<SelfIp>, store: Store)
  {
    && UniqueKeys(store.selfIps) && UniqueKeys(store.routes) && UniqueKeys(local + floating)
    && (forall s <- store.selfIps :: s.body.trafficGroup != "")
    && (forall b <- local :: IsLocal(b))
    && (forall b <- floating :: !IsLocal(b))
  }

  /** No floating self IP that shares a subnet with a redeclared local-only one is itself redeclared as local-only. */
  predicate Restorable(net: Subnet, local: seq<SelfIp>, store: Store)
  {
    forall f <- store.selfIps, n <- local |
      !IsLocal(f) && n.key in KeysOf(store.selfIps) && SharesSubnet(net, f, n) :: f.key !in KeysOf(local)
  }

  // ---------------------------------------------------------------- what a pass finds

  lemma {:induction false} ExistingFacts(bodies: seq<SelfIp>, store: Store)
    ensures forall b :: b in Existing(bodies, store) <==> b in bodies && b.key in KeysOf(store.selfIps)
    ensures KeysOf(Existing(bodies, store)) == KeysOf(bodies) * KeysOf(store.selfIps)
    ensures UniqueKeys(bodies) ==> UniqueKeys(Existing(bodies, store))
    decreases |bodies|
  {
    if bodies != [] {
      var n := |bodies| - 1;
      assert bodies == bodies[..n] + [bodies[n]];
      KeysConcat(bodies[..n], [bodies[n]]);
      ExistingFacts(bodies[..n], store);
      KeysConcat(Existing(bodies[..n], store), [bodies[n]]);
    }
  }

  lemma ExistingMember(bodies: seq<SelfIp>, store: Store, b: SelfIp)
    ensures b in Existing(bodies, store) <==> b in bodies && b.key in KeysOf(store.selfIps)
  {
    ExistingFacts(bodies, store);
  }

  lemma ExistingKeys(bodies: seq<SelfIp>, store: Store)
    ensures KeysOf(Existing(bodies, store)) == KeysOf(bodies) * KeysOf(store.selfIps)
    ensures UniqueKeys(bodies) ==> UniqueKeys(Existing(bodies, store))
  {
    ExistingFacts(bodies, store);
  }

  lemma {:induction false} MatchingRoutesFacts(net: Subnet, doomed: seq<SelfIp>, routes: seq<Route>)
    ensures var m := MatchingRoutes(net, doomed, routes);
      && (forall r <- m :: r in routes && BlocksRoute(net, doomed, r))
      && KeysOf(m) <= KeysOf(routes)
      && (UniqueKeys(routes) ==> UniqueKeys(m))
    decreases |routes|
  {
    if routes != [] {
      var n := |routes| - 1;
      assert routes == routes[..n] + [routes[n]];
      KeysConcat(routes[..n], [routes[n]]);
      MatchingRoutesFacts(net, doomed, routes[..n]);
      KeysConcat(MatchingRoutes(net, doomed, routes[..n]), [routes[n]]);
    }
  }

  lemma {:induction false} MatchingFloatsFacts(net: Subnet, doomed: seq<SelfIp>, selfIps: seq<SelfIp>)
    ensures var m := MatchingFloats(net, doomed, selfIps);
      && (forall f <- m :: f in selfIps && SharesLocalSubnet(net, doomed, f))
      && KeysOf(m) <= KeysOf(selfIps)
      && (UniqueKeys(selfIps) ==> UniqueKeys(m))
    decreases |selfIps|
  {
    if selfIps != [] {
      var n := |selfIps| - 1;
      assert selfIps == selfIps[..n] + [selfIps[n]];
      KeysConcat(selfIps[..n], [selfIps[n]]);
      MatchingFloatsFacts(net, doomed, selfIps[..n]);
      KeysConcat(MatchingFloats(net, doomed, selfIps[..n]), [selfIps[n]]);
    }
  }

  /** Comparing names is enough only while names are unique: then no match is skipped. */
  lemma {:induction false} MatchingRoutesComplete(net: Subnet, doomed: seq<SelfIp>, routes: seq<Route>, r: Route)
    requires UniqueNames(routes) && r in routes && BlocksRoute(net, doomed, r)
    ensures r in MatchingRoutes(net, doomed, routes)
    decreases |routes|
  {
    var n := |routes| - 1;
    var m := MatchingRoutes(net, doomed, routes[..n]);
    if r in routes[..n] {
      MatchingRoutesComplete(net, doomed, routes[..n], r);
    } else {
      assert r == routes[n];
      MatchingRoutesFacts(net, doomed, routes[..n]);
      forall i | 0 <= i < |m| ensures m[i].key.name != r.key.name {
        assert m[i] in m && m[i] in routes[..n];
        var k :| 0 <= k < n && routes[..n][k] == m[i];
        assert routes[k].key.name != routes[n].key.name;
      }
    }
  }

  lemma {:induction false} MatchingFloatsComplete(net: Subnet, doomed: seq<SelfIp>, selfIps: seq<SelfIp>, f: SelfIp)
    requires UniqueNames(selfIps) && f in selfIps && SharesLocalSubnet(net, doomed, f)
    ensures f in MatchingFloats(net, doomed, selfIps)
    decreases |selfIps|
  {
    var n := |selfIps| - 1;
    var m := MatchingFloats(net, doomed, selfIps[..n]);
    if f in selfIps[..n] {
      MatchingFloatsComplete(net, doomed, selfIps[..n], f);
    } else {
      assert f == selfIps[n];
      MatchingFloatsFacts(net, doomed, selfIps[..n]);
      forall i | 0 <= i < |m| ensures m[i].key.name != f.key.name {
        assert m[i] in m && m[i] in selfIps[..n];
        var k :| 0 <= k < n && selfIps[..n][k] == m[i];
        assert selfIps[k].key.name != selfIps[n].key.name;
      }
    }
  }

  /** Floating self IPs never equal a body of the local-only pass, so all of them are put back. */
  lemma {:induction false} AllPutBack(bodies: seq<SelfIp>, floats: seq<SelfIp>)
    requires (forall b <- bodies :: IsLocal(b)) && forall f <- floats :: !IsLocal(f)
    ensures NotAlreadyDeleting(bodies, floats) == floats
    decreases |floats|
  {
    if floats != [] {
      var n := |floats| - 1;
      AllPutBack(bodies, floats[..n]);
      assert floats[n] in floats;
      forall i | 0 <= i < |bodies|
        ensures bodies[i].body.trafficGroup != floats[n].body.trafficGroup
      {
        assert bodies[i] in bodies;
      }
      assert floats == floats[..n] + [floats[n]];
    }
  }

  // ---------------------------------------------------------------- the effect of a pass

  function Floats(net: Subnet, bodies: seq<SelfIp>, store: Store): seq<SelfIp>
  {
    MatchingFloats(net, Existing(bodies, store), store.selfIps)
  }

  /** The store a pass leaves: without the doomed self IPs and the matching routes, possibly without a sync IP. */
  function AfterPass(net: Subnet, bodies: seq<SelfIp>, store: Store): Store
  {
    var pass := DeletePass(net, bodies, store);
    Store(
      Without(store.selfIps, KeysOf(Floats(net, bodies, store)) + KeysOf(Existing(bodies, store))),
      Without(store.routes, KeysOf(pass.routes)),
      if pass.syncIp.Some? then "none" else store.syncIp)
  }

  function BeforeSelfIpDeletes(net: Subnet, bodies: seq<SelfIp>, store: Store): Store
  {
    AfterPass(net, bodies, store).(selfIps := store.selfIps)
  }

  lemma RunOne(store: Store, request: Request)
    ensures Run(store, [request]) == Step(store, request)
  {
    assert [request][1..] == [];
  }

  /** The requests of a pass before its first self-IP delete. */
  function Preparation(net: Subnet, bodies: seq<SelfIp>, store: Store): seq<Request>
  {
    var pass := DeletePass(net, bodies, store);
    RouteDeletes(pass.routes) + ClearSync(pass.syncIp)
  }

  lemma PreparationHarmless(net: Subnet, bodies: seq<SelfIp>, store: Store)
    ensures forall q <- Preparation(net, bodies, store) :: !q.DeleteSelfIp?
  {
  }

  lemma ClearSyncEffect(store: Store, sync: Option<string>)
    ensures Run(store, ClearSync(sync)) == Some(if sync.Some? then store.(syncIp := "none") else store)
  {
    RunOne(store, SetSyncIp("none"));
  }

  lemma PassPreparation(net: Subnet, bodies: seq<SelfIp>, store: Store)
    requires UniqueKeys(store.routes)
    ensures Run(store, Preparation(net, bodies, store)) == Some(BeforeSelfIpDeletes(net, bodies, store))
  {
    var pass := DeletePass(net, bodies, store);
    MatchingRoutesFacts(net, Existing(bodies, store), store.routes);
    DeleteRoutes(store, pass.routes);
    RunConcat(store, RouteDeletes(pass.routes), ClearSync(pass.syncIp));
    ClearSyncEffect(store.(routes := Without(store.routes, KeysOf(pass.routes))), pass.syncIp);
  }

  lemma PassShape(net: Subnet, bodies: seq<SelfIp>, store: Store)
    ensures DeletePass(net, bodies, store).requests
      == Preparation(net, bodies, store)
        + (SelfIpDeletes(Floats(net, bodies, store)) + SelfIpDeletes(Existing(bodies, store)))
  {
  }

  lemma DeletesConcat(a: seq<SelfIp>, b: seq<SelfIp>)
    ensures SelfIpDeletes(a) + SelfIpDeletes(b) == SelfIpDeletes(a + b)
  {
  }

  /** A pass succeeds exactly when no self IP is deleted twice. */
  lemma PassEffect(net: Subnet, bodies: seq<SelfIp>, store: Store)
    requires UniqueKeys(store.selfIps) && UniqueKeys(store.routes) && UniqueKeys(bodies)
    ensures Run(store, DeletePass(net, bodies, store).requests) ==
      if KeysOf(Floats(net, bodies, store)) !! KeysOf(Existing(bodies, store))
      then Some(AfterPass(net, bodies, store)) else None
  {
    var existing := Existing(bodies, store);
    var floats := Floats(net, bodies, store);
    PassPreparation(net, bodies, store);
    PassShape(net, bodies, store);
    var middle := BeforeSelfIpDeletes(net, bodies, store);
    DeletesConcat(floats, existing);
    RunConcat(store, Preparation(net, bodies, store), SelfIpDeletes(floats + existing));
    ExistingFacts(bodies, store);
    MatchingFloatsFacts(net, existing, store.selfIps);
    KeysConcat(floats, existing);
    DeleteSelfIps(middle, floats + existing);
  }

  lemma {:induction false} NoFloats(net: Subnet, doomed: seq<SelfIp>, selfIps: seq<SelfIp>)
    requires forall s <- doomed :: !IsLocal(s)
    ensures MatchingFloats(net, doomed, selfIps) == []
    decreases |selfIps|
  {
    assert forall i | 0 <= i < |doomed| :: doomed[i] in doomed;
    if selfIps != [] {
      NoFloats(net, doomed, selfIps[..|selfIps| - 1]);
    }
  }

  /** The first pass deletes floating self IPs only, so it has nothing to put back besides routes and sync IP. */
  lemma FirstPass(net: Subnet, floating: seq<SelfIp>, store: Store)
    requires forall b <- floating :: !IsLocal(b)
    ensures Floats(net, floating, store) == [] && DeletePass(net, floating, store).floats == []
  {
    ExistingFacts(floating, store);
    NoFloats(net, Existing(floating, store), store.selfIps);
  }

  // ---------------------------------------------------------------- the effect of the whole handler

  function AfterFirst(net: Subnet, floating: seq<SelfIp>, store: Store): Store
  {
    AfterPass(net, floating, store)
  }

  function RestoredFloats(net: Subnet, local: seq<SelfIp>, floating: seq<SelfIp>, store: Store): seq<SelfIp>
  {
    RestoredAll(Floats(net, local, AfterFirst(net, floating, store)))
  }

  function DeletedRoutes(net: Subnet, local: seq<SelfIp>, floating: seq<SelfIp>, store: Store): seq<Route>
  {
    DeletePass(net, floating, store).routes + DeletePass(net, local, AfterFirst(net, floating, store)).routes
  }

  function Final(net: Subnet, local: seq<SelfIp>, floating: seq<SelfIp>, store: Store): Store
  {
    var s2 := AfterPass(net, local, AfterFirst(net, floating, store));
    Store(
      s2.selfIps + local + floating + RestoredFloats(net, local, floating, store),
      s2.routes + RestoredRoutes(DeletedRoutes(net, local, floating, store)),
      store.syncIp)
  }

  /** No self IP is found both as a floating neighbour and as a redeclared local-only self IP. */
  predicate NoDoubleDelete(net: Subnet, local: seq<SelfIp>, floating: seq<SelfIp>, store: Store)
  {
    var s1 := AfterFirst(net, floating, store);
    KeysOf(Floats(net, local, s1)) !! KeysOf(Existing(local, s1))
  }

  lemma {:induction false} RestoredKeys(xs: seq<SelfIp>)
    ensures KeysOf(RestoredAll(xs)) == KeysOf(xs)
    ensures UniqueKeys(xs) ==> UniqueKeys(RestoredAll(xs))
    decreases |xs|
  {
    if xs != [] {
      assert RestoredAll(xs)[1..] == RestoredAll(xs[1..]);
      RestoredKeys(xs[1..]);
    }
  }

  lemma {:induction false} RestoredRouteKeys(xs: seq<Route>)
    ensures KeysOf(RestoredRoutes(xs)) == KeysOf(xs)
    ensures UniqueKeys(xs) ==> UniqueKeys(RestoredRoutes(xs))
    decreases |xs|
  {
    if xs != [] {
      assert RestoredRoutes(xs)[1..] == RestoredRoutes(xs[1..]);
      RestoredRouteKeys(xs[1..]);
    }
  }

  /** The keys left by a pass: everything but what it deleted. */
  lemma AfterPassKeys(net: Subnet, bodies: seq<SelfIp>, store: Store)
    requires UniqueKeys(store.selfIps) && UniqueKeys(store.routes)
    ensures var after := AfterPass(net, bodies, store);
      && UniqueKeys(after.selfIps) && UniqueKeys(after.routes)
      && KeysOf(after.selfIps) == KeysOf(store.selfIps) - KeysOf(Floats(net, bodies, store)) - KeysOf(bodies)
      && KeysOf(after.routes) == KeysOf(store.routes) - KeysOf(DeletePass(net, bodies, store).routes)
  {
    ExistingFacts(bodies, store);
    WithoutKeys(store.selfIps, KeysOf(Floats(net, bodies, store)) + KeysOf(Existing(bodies, store)));
    WithoutKeys(store.routes, KeysOf(DeletePass(net, bodies, store).routes));
  }

  lemma AfterPassMember(net: Subnet, bodies: seq<SelfIp>, store: Store, s: SelfIp)
    ensures s in AfterPass(net, bodies, store).selfIps <==>
      s in store.selfIps && s.key !in KeysOf(Floats(net, bodies, store)) && s.key !in KeysOf(bodies)
  {
    ExistingFacts(bodies, store);
    if s in store.selfIps {
      KeyIn(store.selfIps, s);
    }
  }

  /** The first pass removes exactly the redeclared floating self IPs. */
  lemma AfterFirstMember(net: Subnet, floating: seq<SelfIp>, store: Store, s: SelfIp)
    requires forall b <- floating :: !IsLocal(b)
    ensures s in AfterFirst(net, floating, store).selfIps <==> s in store.selfIps && s.key !in KeysOf(floating)
  {
    FirstPass(net, floating, store);
    AfterPassMember(net, floating, store, s);
  }

  lemma FinalKeys(net: Subnet, local: seq<SelfIp>, floating: seq<SelfIp>, store: Store)
    requires WellFormed(local, floating, store) && NoDoubleDelete(net, local, floating, store)
    ensures UniqueKeys(Final(net, local, floating, store).selfIps)
  {
    var s1 := AfterFirst(net, floating, store);
    var s2 := AfterPass(net, local, s1);
    var floats := Floats(net, local, s1);
    KeysConcat(local, floating);
    FirstPass(net, floating, store);
    AfterPassKeys(net, floating, store);
    AfterPassKeys(net, local, s1);
    ExistingFacts(local, s1);
    MatchingFloatsFacts(net, Existing(local, s1), s1.selfIps);
    RestoredKeys(floats);
    KeysConcat(s2.selfIps, local);
    KeysConcat(s2.selfIps + local, floating);
    KeysConcat(s2.selfIps + local + floating, RestoredAll(floats));
  }

  lemma PassRouteKeys(net: Subnet, bodies: seq<SelfIp>, store: Store)
    requires UniqueKeys(store.routes)
    ensures UniqueKeys(DeletePass(net, bodies, store).routes)
    ensures KeysOf(DeletePass(net, bodies, store).routes) <= KeysOf(store.routes)
  {
    MatchingRoutesFacts(net, Existing(bodies, store), store.routes);
  }

  /** Two rounds of removal, then everything removed put back. */
  lemma RouteKeysBack(all: seq<Route>, some: seq<Route>, left: seq<Route>, r1: seq<Route>, r2: seq<Route>)
    requires UniqueKeys(left) && UniqueKeys(r1) && UniqueKeys(r2)
    requires KeysOf(r1) <= KeysOf(all) && KeysOf(some) == KeysOf(all) - KeysOf(r1)
    requires KeysOf(r2) <= KeysOf(some) && KeysOf(left) == KeysOf(some) - KeysOf(r2)
    ensures UniqueKeys(left + RestoredRoutes(r1 + r2))
    ensures KeysOf(left + RestoredRoutes(r1 + r2)) == KeysOf(all)
  {
    hide KeysOf, UniqueKeys, RestoredRoutes;
    KeysConcat(r1, r2);
    RestoredRouteKeys(r1 + r2);
    KeysConcat(left, RestoredRoutes(r1 + r2));
  }

  lemma FinalRouteKeys(net: Subnet, local: seq<SelfIp>, floating: seq<SelfIp>, store: Store)
    requires UniqueKeys(store.selfIps) && UniqueKeys(store.routes)
    ensures UniqueKeys(Final(net, local, floating, store).routes)
    ensures KeysOf(Final(net, local, floating, store).routes) == KeysOf(store.routes)
  {
    var s1 := AfterFirst(net, floating, store);
    var s2 := AfterPass(net, local, s1);
    var r1 := DeletePass(net, floating, store).routes;
    var r2 := DeletePass(net, local, s1).routes;
    AfterPassKeys(net, floating, store);
    AfterPassKeys(net, local, s1);
    PassRouteKeys(net, floating, store);
    PassRouteKeys(net, local, s1);
    RouteKeysBack(store.routes, s1.routes, s2.routes, r1, r2);
  }

  /** Creating self IPs first and then continuing. */
  lemma CreateThen(store: Store, xs: seq<SelfIp>, rest: seq<Request>)
    requires UniqueKeys(store.selfIps + xs)
    ensures Run(store, SelfIpCreates(xs) + rest) == Run(store.(selfIps := store.selfIps + xs), rest)
  {
    CreateSelfIps(store, xs);
    RunConcat(store, SelfIpCreates(xs), rest);
  }

  lemma CreatesEffect(store: Store, local: seq<SelfIp>, floating: seq<SelfIp>, floats: seq<SelfIp>,
                      sync: Option<string>, routes: seq<Route>)
    requires UniqueKeys(store.selfIps + local + floating + RestoredAll(floats))
    requires UniqueKeys(store.routes + RestoredRoutes(routes))
    ensures Run(store, Creates(local, floating, floats, sync, routes)) == Some(Store(
      store.selfIps + local + floating + RestoredAll(floats), store.routes + RestoredRoutes(routes),
      if sync.Some? then sync.value else store.syncIp))
  {
    var a1 := store.selfIps + local;
    var a2 := a1 + floating;
    var a3 := a2 + RestoredAll(floats);
    KeysConcat(a2, RestoredAll(floats));
    KeysConcat(a1, floating);
    var c5 := RouteCreates(RestoredRoutes(routes));
    var c4 := RestoreSync(sync) + c5;
    var c3 := SelfIpCreates(RestoredAll(floats)) + c4;
    CreateThen(store, local, SelfIpCreates(floating) + c3);
    CreateThen(store.(selfIps := a1), floating, c3);
    CreateThen(store.(selfIps := a2), RestoredAll(floats), c4);
    var s := store.(selfIps := a3);
    RunConcat(s, RestoreSync(sync), c5);
    if sync.Some? { RunOne(s, SetSyncIp(sync.value)); }
    CreateRoutes(s.(syncIp := if sync.Some? then sync.value else store.syncIp), RestoredRoutes(routes));
  }

  /** Every floating self IP deleted on the way is recorded to be put back. */
  lemma PutBackAll(net: Subnet, local: seq<SelfIp>, floating: seq<SelfIp>, store: Store)
    requires (forall b <- local :: IsLocal(b)) && forall b <- floating :: !IsLocal(b)
    ensures var s1 := AfterFirst(net, floating, store);
      DeletePass(net, floating, store).floats + DeletePass(net, local, s1).floats == Floats(net, local, s1)
  {
    hide IsLocal, AfterFirst;
    var s1 := AfterFirst(net, floating, store);
    FirstPass(net, floating, store);
    MatchingFloatsFacts(net, Existing(local, s1), s1.selfIps);
    AllPutBack(local, Floats(net, local, s1));
  }

  lemma CreatePhaseEffect(net: Subnet, local: seq<SelfIp>, floating: seq<SelfIp>, store: Store)
    requires WellFormed(local, floating, store) && NoDoubleDelete(net, local, floating, store)
    ensures var s1 := AfterFirst(net, floating, store);
      Run(AfterPass(net, local, s1),
          CreatePhase(local, floating, DeletePass(net, floating, store), DeletePass(net, local, s1)))
      == Some(Final(net, local, floating, store))
  {
    var s1 := AfterFirst(net, floating, store);
    var p1, p2 := DeletePass(net, floating, store), DeletePass(net, local, s1);
    PutBackAll(net, local, floating, store);
    FinalKeys(net, local, floating, store);
    FinalRouteKeys(net, local, floating, store);
    CreatesEffect(AfterPass(net, local, s1), local, floating, p1.floats + p2.floats, FirstOf(p1.syncIp, p2.syncIp),
                  p1.routes + p2.routes);
  }

  /** The two passes, one after the other. */
  lemma PassesEffect(net: Subnet, local: seq<SelfIp>, floating: seq<SelfIp>, store: Store)
    requires WellFormed(local, floating, store)
    ensures var s1 := AfterFirst(net, floating, store);
      && Run(store, DeletePass(net, floating, store).requests) == Some(s1)
      && Run(s1, DeletePass(net, local, s1).requests) ==
           if NoDoubleDelete(net, local, floating, store) then Some(AfterPass(net, local, s1)) else None
  {
    KeysConcat(local, floating);
    FirstPass(net, floating, store);
    PassEffect(net, floating, store);
    AfterPassKeys(net, floating, store);
    hide Run, DeletePass, AfterPass, Existing;
    PassEffect(net, local, AfterFirst(net, floating, store));
  }

  /** handleSelfIp runs to its end exactly when nothing is deleted twice, and then leaves `Final`. */
  lemma HandleEffect(net: Subnet, local: seq<SelfIp>, floating: seq<SelfIp>, store: Store)
    requires WellFormed(local, floating, store)
    ensures Handle(net, local, floating, store).Some? <==> NoDoubleDelete(net, local, floating, store)
    ensures Handle(net, local, floating, store).Some? ==>
      Handle(net, local, floating, store).value.store == Final(net, local, floating, store)
  {
    PassesEffect(net, local, floating, store);
    hide WellFormed, AfterFirst, Final, CreatePhase, DeletePass, Run, NoDoubleDelete;
    if NoDoubleDelete(net, local, floating, store) {
      CreatePhaseEffect(net, local, floating, store);
    }
  }

  lemma {:induction false} WithoutNames<T(!new)>(xs: seq<Item<T>>, ks: set<Key>)
    requires UniqueNames(xs)
    ensures UniqueNames(Without(xs, ks))
  {
    if xs != [] {
      assert forall i, j | 0 <= i < j < |xs[1..]| :: xs[1..][i] == xs[i + 1] && xs[1..][j] == xs[j + 1];
      WithoutNames(xs[1..], ks);
      var rest := Without(xs[1..], ks);
      forall x <- rest ensures x.key.name != xs[0].key.name {
        assert x in xs[1..];
        var k :| 0 <= k < |xs[1..]| && xs[1..][k] == x;
        assert xs[k + 1] == x;
      }
      forall i, j | 0 <= i < j < |[xs[0]] + rest|
        ensures ([xs[0]] + rest)[i].key.name != ([xs[0]] + rest)[j].key.name
      {
        assert rest[j - 1] in rest;
      }
    }
  }

  /** An undeclared floating self IP in the subnet of a redeclared local-only one. */
  predicate Neighbour(net: Subnet, local: seq<SelfIp>, floating: seq<SelfIp>, store: Store, f: SelfIp)
  {
    && f in store.selfIps && !IsLocal(f) && f.key !in KeysOf(floating)
    && exists n <- local :: n.key in KeysOf(store.selfIps) && SharesSubnet(net, f, n)
  }

  /** The first pass leaves the redeclared local-only self IPs for the second one. */
  lemma SecondExisting(net: Subnet, local: seq<SelfIp>, floating: seq<SelfIp>, store: Store, n: SelfIp)
    requires WellFormed(local, floating, store)
    ensures n in Existing(local, AfterFirst(net, floating, store)) <==> n in local && n.key in KeysOf(store.selfIps)
  {
    KeysConcat(local, floating);
    FirstPass(net, floating, store);
    AfterPassKeys(net, floating, store);
    ExistingMember(local, AfterFirst(net, floating, store), n);
    if n in local {
      KeyIn(local, n);
    }
  }

  lemma FloatsAreNeighbours(net: Subnet, local: seq<SelfIp>, floating: seq<SelfIp>, store: Store, f: SelfIp)
    requires WellFormed(local, floating, store)
    requires f in Floats(net, local, AfterFirst(net, floating, store))
    ensures Neighbour(net, local, floating, store, f)
  {
    var s1 := AfterFirst(net, floating, store);
    var existing := Existing(local, s1);
    MatchingFloatsFacts(net, existing, s1.selfIps);
    AfterFirstMember(net, floating, store, f);
    var i :| 0 <= i < |existing| && IsLocal(existing[i]) && SharesSubnet(net, f, existing[i]);
    SecondExisting(net, local, floating, store, existing[i]);
  }

  lemma NeighboursAreFloats(net: Subnet, local: seq<SelfIp>, floating: seq<SelfIp>, store: Store, f: SelfIp)
    requires WellFormed(local, floating, store) && UniqueNames(store.selfIps)
    requires Neighbour(net, local, floating, store, f)
    ensures f in Floats(net, local, AfterFirst(net, floating, store))
  {
    var s1 := AfterFirst(net, floating, store);
    var existing := Existing(local, s1);
    AfterFirstMember(net, floating, store, f);
    var n :| n in local && n.key in KeysOf(store.selfIps) && SharesSubnet(net, f, n);
    SecondExisting(net, local, floating, store, n);
    var i :| 0 <= i < |existing| && existing[i] == n;
    hide WellFormed, KeysOf, Floats, Existing, UniqueNames, UniqueKeys, MatchingRoutes;
    WithoutNames(store.selfIps, KeysOf(Floats(net, floating, store)) + KeysOf(Existing(floating, store)));
    MatchingFloatsComplete(net, existing, s1.selfIps, f);
  }

  /** The condition a caller can check before the call. */
  lemma RestorableSuffices(net: Subnet, local: seq<SelfIp>, floating: seq<SelfIp>, store: Store)
    requires WellFormed(local, floating, store)
    ensures Restorable(net, local, store) ==> NoDoubleDelete(net, local, floating, store)
  {
    var s1 := AfterFirst(net, floating, store);
    var existing, floats := Existing(local, s1), Floats(net, local, s1);
    if Restorable(net, local, store) {
      forall f <- floats, b <- existing ensures f.key != b.key {
        FloatsAreNeighbours(net, local, floating, store, f);
        SecondExisting(net, local, floating, store, b);
        KeyIn(local, b);
      }
      DisjointKeys(floats, existing);
    }
  }

  lemma RestorableNeeded(net: Subnet, local: seq<SelfIp>, floating: seq<SelfIp>, store: Store)
    requires WellFormed(local, floating, store) && UniqueNames(store.selfIps)
    requires NoDoubleDelete(net, local, floating, store)
    ensures Restorable(net, local, store)
  {
    var s1 := AfterFirst(net, floating, store);
    KeysConcat(local, floating);
    FirstPass(net, floating, store);
    AfterPassKeys(net, floating, store);
    ExistingKeys(local, s1);
    forall f <- store.selfIps, n <- local |
      !IsLocal(f) && n.key in KeysOf(store.selfIps) && SharesSubnet(net, f, n)
      ensures f.key !in KeysOf(local)
    {
      KeyIn(store.selfIps, f);
      if f.key !in KeysOf(floating) {
        NeighboursAreFloats(net, local, floating, store, f);
        KeyIn(Floats(net, local, s1), f);
      }
    }
  }

  /** With unique self-IP names, the handler completes exactly when the declaration is restorable. */
  lemma CompletesIff(net: Subnet, local: seq<SelfIp>, floating: seq<SelfIp>, store: Store)
    requires WellFormed(local, floating, store) && UniqueNames(store.selfIps)
    ensures Handle(net, local, floating, store).Some? <==> Restorable(net, local, store)
  {
    HandleEffect(net, local, floating, store);
    RestorableSuffices(net, local, floating, store);
    if NoDoubleDelete(net, local, floating, store) {
      RestorableNeeded(net, local, floating, store);
    }
  }

  // ---------------------------------------------------------------- conservation

  /** What is on the device afterwards, in terms of what the handler puts back. */
  lemma Accounted(net: Subnet, local: seq<SelfIp>, floating: seq<SelfIp>, store: Store)
    requires WellFormed(local, floating, store) && Restorable(net, local, store)
    ensures Handle(net, local, floating, store).Some?
    ensures var end := Handle(net, local, floating, store).value.store;
      && UniqueKeys(end.selfIps) && UniqueKeys(end.routes)
      && (forall b <- local + floating :: b in end.selfIps)
      && (forall s <- store.selfIps | s.key !in KeysOf(local + floating) ::
            s in end.selfIps || Restored(s) in end.selfIps)
      && (forall s <- end.selfIps :: s in local + floating ||
            exists was <- store.selfIps :: was.key !in KeysOf(local + floating) && (s == was || s == Restored(was)))
      && KeysOf(end.routes) == KeysOf(store.routes)
      && (forall r <- store.routes :: r in end.routes || RestoredRoute(r) in end.routes)
      && end.syncIp == store.syncIp
  {
    hide Handle, KeysOf, UniqueKeys, NoDoubleDelete, Restorable, Restored, RestoredRoute;
    RestorableSuffices(net, local, floating, store);
    HandleEffect(net, local, floating, store);
    FinalKeys(net, local, floating, store);
    FinalRouteKeys(net, local, floating, store);
    UndeclaredKept(net, local, floating, store);
    NothingInvented(net, local, floating, store);
    RoutesKept(net, local, floating, store);
  }

  lemma UndeclaredKept(net: Subnet, local: seq<SelfIp>, floating: seq<SelfIp>, store: Store)
    requires WellFormed(local, floating, store)
    ensures var end := Final(net, local, floating, store);
      forall s <- store.selfIps | s.key !in KeysOf(local + floating) :: s in end.selfIps || Restored(s) in end.selfIps
  {
    hide IsLocal, UniqueKeys;
    var s1 := AfterFirst(net, floating, store);
    var floats := Floats(net, local, s1);
    var end := Final(net, local, floating, store);
    KeysConcat(local, floating);
    MatchingFloatsFacts(net, Existing(local, s1), s1.selfIps);
    AfterPassKeys(net, floating, store);
    FirstPass(net, floating, store);
    forall s <- store.selfIps | s.key !in KeysOf(local + floating)
      ensures s in end.selfIps || Restored(s) in end.selfIps
    {
      AfterFirstMember(net, floating, store, s);
      AfterPassMember(net, local, s1, s);
      if s.key in KeysOf(floats) {
        var f := KeyOwner(floats, s.key);
        SameKeySameItem(s1.selfIps, s, f);
        var i :| 0 <= i < |floats| && floats[i] == s;
        assert RestoredAll(floats)[i] == Restored(s);
      }
    }
  }

  lemma {:induction false} SameKeySameItem<T>(xs: seq<Item<T>>, a: Item<T>, b: Item<T>)
    requires UniqueKeys(xs) && a in xs && b in xs && a.key == b.key
    ensures a == b
  {
    if a in xs[1..] { KeyIn(xs[1..], a); }
    if b in xs[1..] { KeyIn(xs[1..], b); }
    if a in xs[1..] && b in xs[1..] {
      SameKeySameItem(xs[1..], a, b);
    }
  }

  /** Whatever survives both passes, or is put back after them, was on the device and is not declared. */
  lemma SurvivorsUndeclared(net: Subnet, local: seq<SelfIp>, floating: seq<SelfIp>, store: Store)
    requires WellFormed(local, floating, store) && NoDoubleDelete(net, local, floating, store)
    ensures var s1 := AfterFirst(net, floating, store);
      forall s <- AfterPass(net, local, s1).selfIps + Floats(net, local, s1) ::
        s in store.selfIps && s.key !in KeysOf(local + floating)
  {
    var s1 := AfterFirst(net, floating, store);
    var floats := Floats(net, local, s1);
    KeysConcat(local, floating);
    ExistingFacts(local, s1);
    MatchingFloatsFacts(net, Existing(local, s1), s1.selfIps);
    forall s <- AfterPass(net, local, s1).selfIps + floats
      ensures s in store.selfIps && s.key !in KeysOf(local + floating)
    {
      if s in floats {
        KeyIn(floats, s);
        KeyIn(s1.selfIps, s);
      } else {
        AfterPassMember(net, local, s1, s);
      }
      AfterFirstMember(net, floating, store, s);
    }
  }

  lemma RestoredMember(xs: seq<SelfIp>, s: SelfIp) returns (x: SelfIp)
    requires s in RestoredAll(xs)
    ensures x in xs && s == Restored(x)
  {
    var i :| 0 <= i < |xs| && s == RestoredAll(xs)[i];
    x := xs[i];
  }

  lemma NothingInvented(net: Subnet, local: seq<SelfIp>, floating: seq<SelfIp>, store: Store)
    requires WellFormed(local, floating, store) && NoDoubleDelete(net, local, floating, store)
    ensures var end := Final(net, local, floating, store);
      forall s <- end.selfIps :: s in local + floating ||
        exists was <- store.selfIps :: was.key !in KeysOf(local + floating) && (s == was || s == Restored(was))
  {
    var s1 := AfterFirst(net, floating, store);
    var s2 := AfterPass(net, local, s1);
    var floats := Floats(net, local, s1);
    SurvivorsUndeclared(net, local, floating, store);
    forall s <- Final(net, local, floating, store).selfIps | s !in local + floating
      ensures exists was <- store.selfIps ::
        was.key !in KeysOf(local + floating) && (s == was || s == Restored(was))
    {
      if s in s2.selfIps {
        assert s in s2.selfIps + floats;
      } else {
        var f := RestoredMember(floats, s);
        assert f in s2.selfIps + floats;
      }
    }
  }

  lemma RoutesKept(net: Subnet, local: seq<SelfIp>, floating: seq<SelfIp>, store: Store)
    requires UniqueKeys(store.routes)
    ensures var end := Final(net, local, floating, store);
      forall r <- store.routes :: r in end.routes || RestoredRoute(r) in end.routes
  {
    var s1 := AfterFirst(net, floating, store);
    var r1 := DeletePass(net, floating, store).routes;
    var r2 := DeletePass(net, local, s1).routes;
    MatchingRoutesFacts(net, Existing(floating, store), store.routes);
    MatchingRoutesFacts(net, Existing(local, s1), s1.routes);
    KeysConcat(r1, r2);
    forall r <- store.routes
      ensures r in Final(net, local, floating, store).routes
        || RestoredRoute(r) in Final(net, local, floating, store).routes
    {
      KeyIn(store.routes, r);
      if r.key in KeysOf(r1 + r2) {
        var d := KeyOwner(r1 + r2, r.key);
        SameKeySameItem(store.routes, r, d);
        var i :| 0 <= i < |r1 + r2| && (r1 + r2)[i] == r;
        assert RestoredRoutes(r1 + r2)[i] == RestoredRoute(r);
      }
    }
  }
  /** A route that has its gateway in no subnet of a redeclared self IP is not touched. */
  lemma RouteUntouched(net: Subnet, local: seq<SelfIp>, floating: seq<SelfIp>, store: Store, r: Route)
    requires UniqueKeys(store.routes) && r in store.routes
    requires forall b <- local + floating | b.key in KeysOf(store.selfIps) :: !GatewayInSubnet(net, r, b)
    ensures r in Final(net, local, floating, store).routes
  {
    var s1 := AfterFirst(net, floating, store);
    PassKeepsOrder(net, floating, store);
    RouteSpared(net, floating, store, r);
    RouteSpared(net, local, s1, r);
  }

  lemma PassKeepsOrder(net: Subnet, bodies: seq<SelfIp>, store: Store)
    requires UniqueKeys(store.routes)
    ensures UniqueKeys(AfterPass(net, bodies, store).routes)
    ensures KeysOf(AfterPass(net, bodies, store).selfIps) <= KeysOf(store.selfIps)
  {
    WithoutKeys(store.routes, KeysOf(DeletePass(net, bodies, store).routes));
    WithoutKeys(store.selfIps, KeysOf(Floats(net, bodies, store)) + KeysOf(Existing(bodies, store)));
  }

  lemma RouteSpared(net: Subnet, bodies: seq<SelfIp>, store: Store, r: Route)
    requires UniqueKeys(store.routes) && r in store.routes
    requires forall b <- bodies | b.key in KeysOf(store.selfIps) :: !GatewayInSubnet(net, r, b)
    ensures r in AfterPass(net, bodies, store).routes
  {
    var existing := Existing(bodies, store);
    var m := MatchingRoutes(net, existing, store.routes);
    ExistingFacts(bodies, store);
    MatchingRoutesFacts(net, existing, store.routes);
    if r.key in KeysOf(m) {
      var d := KeyOwner(m, r.key);
      SameKeySameItem(store.routes, r, d);
    }
  }

  /** A self IP that is local-only or shares a subnet with no doomed local-only one is not deleted as a neighbour. */
  lemma FloatsSpare(net: Subnet, bodies: seq<SelfIp>, store: Store, s: SelfIp)
    requires UniqueKeys(store.selfIps) && s in store.selfIps
    requires IsLocal(s) || forall b <- bodies | b.key in KeysOf(store.selfIps) :: !SharesSubnet(net, s, b)
    ensures s.key !in KeysOf(Floats(net, bodies, store))
  {
    hide IsLocal, SharesSubnet, UniqueKeys;
    var floats := Floats(net, bodies, store);
    ExistingFacts(bodies, store);
    MatchingFloatsFacts(net, Existing(bodies, store), store.selfIps);
    if s.key in KeysOf(floats) {
      var f := KeyOwner(floats, s.key);
      SameKeySameItem(store.selfIps, s, f);
    }
  }

  /** An undeclared self IP is not touched if it is local-only or shares a subnet with no redeclared local-only one. */
  lemma SelfIpUntouched(net: Subnet, local: seq<SelfIp>, floating: seq<SelfIp>, store: Store, s: SelfIp)
    requires WellFormed(local, floating, store) && s in store.selfIps && s.key !in KeysOf(local + floating)
    requires IsLocal(s) || forall b <- local | b.key in KeysOf(store.selfIps) :: !SharesSubnet(net, s, b)
    ensures s in Final(net, local, floating, store).selfIps
  {
    hide IsLocal, SharesSubnet, UniqueKeys, AfterPass, Floats;
    var s1 := AfterFirst(net, floating, store);
    KeysConcat(local, floating);
    AfterFirstMember(net, floating, store, s);
    AfterPassMember(net, local, s1, s);
    AfterPassKeys(net, floating, store);
    FloatsSpare(net, local, s1, s);
  }

  /** Whatever became of a route, what is there under its full path has its gateway, network and MTU. */
  lemma RouteContents(net: Subnet, local: seq<SelfIp>, floating: seq<SelfIp>, store: Store, r: Route, x: Route)
    requires WellFormed(local, floating, store) && Restorable(net, local, store) && r in store.routes
    requires Handle(net, local, floating, store).Some? && x in Handle(net, local, floating, store).value.store.routes
    requires x.key == r.key
    ensures x.body.gw == r.body.gw && x.body.network == r.body.network && x.body.mtu == r.body.mtu
  {
    hide Handle, WellFormed, Restorable;
    Accounted(net, local, floating, store);
    var end := Handle(net, local, floating, store).value.store;
    SameKeySameItem(end.routes, x, if r in end.routes then r else RestoredRoute(r));
  }

  lemma SelfIpContents(net: Subnet, local: seq<SelfIp>, floating: seq<SelfIp>, store: Store, s: SelfIp, x: SelfIp)
    requires WellFormed(local, floating, store) && Restorable(net, local, store)
    requires Handle(net, local, floating, store).Some? && x in Handle(net, local, floating, store).value.store.selfIps
    requires s in store.selfIps && s.key !in KeysOf(local + floating) && x.key == s.key
    ensures x.body.vlan == s.body.vlan && x.body.address == s.body.address
    ensures x.body.trafficGroup == s.body.trafficGroup && x.body.allowService == s.body.allowService
    ensures x.body.fwEnforcedPolicy == s.body.fwEnforcedPolicy && x.body.fwStagedPolicy == s.body.fwStagedPolicy
  {
    hide Handle, WellFormed, Restorable;
    Accounted(net, local, floating, store);
    var end := Handle(net, local, floating, store).value.store;
    SameKeySameItem(end.selfIps, x, if s in end.selfIps then s else Restored(s));
  }

  /**
   * Afterwards the full paths are those of the declared and of the undeclared self IPs, each once; every route is there
   * once and the config-sync IP has its old value. A declared self IP is as declared; whatever was deleted on the way
   * has its old properties, as far as the handler lists them; what depends on no redeclared self IP is not touched.
   */
  lemma Conservation(net: Subnet, local: seq<SelfIp>, floating: seq<SelfIp>, store: Store)
    requires WellFormed(local, floating, store) && Restorable(net, local, store)
    ensures Handle(net, local, floating, store).Some?
    ensures var end := Handle(net, local, floating, store).value.store;
      && UniqueKeys(end.selfIps) && KeysOf(end.selfIps) == KeysOf(store.selfIps) + KeysOf(local + floating)
      && UniqueKeys(end.routes) && KeysOf(end.routes) == KeysOf(store.routes)
      && end.syncIp == store.syncIp
      && (forall b <- local + floating :: b in end.selfIps)
      && (forall s <- store.selfIps, x <- end.selfIps | x.key == s.key && s.key !in KeysOf(local + floating) ::
            && x.body.vlan == s.body.vlan && x.body.address == s.body.address
            && x.body.trafficGroup == s.body.trafficGroup && x.body.allowService == s.body.allowService
            && x.body.fwEnforcedPolicy == s.body.fwEnforcedPolicy && x.body.fwStagedPolicy == s.body.fwStagedPolicy)
      && (forall r <- store.routes, x <- end.routes | x.key == r.key ::
            x.body.gw == r.body.gw && x.body.network == r.body.network && x.body.mtu == r.body.mtu)
      && (forall r <- store.routes
            | (forall b <- local + floating | b.key in KeysOf(store.selfIps) :: !GatewayInSubnet(net, r, b)) ::
            r in end.routes)
      && (forall s <- store.selfIps | s.key !in KeysOf(local + floating)
            && (IsLocal(s) || forall b <- local | b.key in KeysOf(store.selfIps) :: !SharesSubnet(net, s, b)) ::
            s in end.selfIps)
  {
    hide Handle, KeysOf, WellFormed, NoDoubleDelete, Restorable, Final, UniqueKeys, IsLocal, SharesSubnet;
    hide GatewayInSubnet, Restored, RestoredRoute;
    Accounted(net, local, floating, store);
    RestorableSuffices(net, local, floating, store);
    HandleEffect(net, local, floating, store);
    AllKeys(net, local, floating, store);
    var end := Handle(net, local, floating, store).value.store;
    forall s <- store.selfIps, x <- end.selfIps | x.key == s.key && s.key !in KeysOf(local + floating)
      ensures x.body.vlan == s.body.vlan && x.body.address == s.body.address
      ensures x.body.trafficGroup == s.body.trafficGroup && x.body.allowService == s.body.allowService
      ensures x.body.fwEnforcedPolicy == s.body.fwEnforcedPolicy && x.body.fwStagedPolicy == s.body.fwStagedPolicy
    {
      SelfIpContents(net, local, floating, store, s, x);
    }
    forall r <- store.routes, x <- end.routes | x.key == r.key
      ensures x.body.gw == r.body.gw && x.body.network == r.body.network && x.body.mtu == r.body.mtu
    {
      RouteContents(net, local, floating, store, r, x);
    }
    RoutesSorted(local, floating, store);
    forall r <- store.routes
      | forall b <- local + floating | b.key in KeysOf(store.selfIps) :: !GatewayInSubnet(net, r, b)
      ensures r in end.routes
    {
      RouteUntouched(net, local, floating, store, r);
    }
    forall s <- store.selfIps | s.key !in KeysOf(local + floating)
      && (IsLocal(s) || forall b <- local | b.key in KeysOf(store.selfIps) :: !SharesSubnet(net, s, b))
      ensures s in end.selfIps
    {
      SelfIpUntouched(net, local, floating, store, s);
    }
  }

  /**
   * The properties the handler does not list are lost: a route with its gateway in the subnet of a redeclared self IP
   * comes back without them, and so does an undeclared floating self IP in the subnet of a redeclared local-only one.
   */
  lemma OtherPropertiesLost(net: Subnet, local: seq<SelfIp>, floating: seq<SelfIp>, store: Store)
    requires WellFormed(local, floating, store) && Restorable(net, local, store)
    requires UniqueNames(store.selfIps) && UniqueNames(store.routes)
    ensures Handle(net, local, floating, store).Some?
    ensures var end := Handle(net, local, floating, store).value.store;
      && (forall r <- store.routes, b <- local + floating, x <- end.routes
            | b.key in KeysOf(store.selfIps) && GatewayInSubnet(net, r, b) && x.key == r.key :: x.body.other == "")
      && (forall s <- store.selfIps, b <- local, x <- end.selfIps
            | s.key !in KeysOf(local + floating) && !IsLocal(s) && b.key in KeysOf(store.selfIps)
              && SharesSubnet(net, s, b) && x.key == s.key :: x.body.other == "")
  {
    hide Handle, NoDoubleDelete, Final, WellFormed, Restorable, KeysOf, UniqueKeys, UniqueNames, IsLocal, SharesSubnet;
    hide GatewayInSubnet;
    RestorableSuffices(net, local, floating, store);
    HandleEffect(net, local, floating, store);
    Accounted(net, local, floating, store);
    var end := Handle(net, local, floating, store).value.store;
    forall r <- store.routes, b <- local + floating, x <- end.routes
      | b.key in KeysOf(store.selfIps) && GatewayInSubnet(net, r, b) && x.key == r.key ensures x.body.other == ""
    {
      RouteLoses(net, local, floating, store, r, b);
      SameKeySameItem(end.routes, x, RestoredRoute(r));
    }
    forall s <- store.selfIps, b <- local, x <- end.selfIps
      | s.key !in KeysOf(local + floating) && !IsLocal(s) && b.key in KeysOf(store.selfIps)
        && SharesSubnet(net, s, b) && x.key == s.key
      ensures x.body.other == ""
    {
      FloatLoses(net, local, floating, store, s, b);
      SameKeySameItem(end.selfIps, x, Restored(s));
    }
  }

  lemma RouteLoses(net: Subnet, local: seq<SelfIp>, floating: seq<SelfIp>, store: Store, r: Route, b: SelfIp)
    requires WellFormed(local, floating, store) && UniqueNames(store.routes) && r in store.routes
    requires b in local + floating && b.key in KeysOf(store.selfIps) && GatewayInSubnet(net, r, b)
    ensures RestoredRoute(r) in Final(net, local, floating, store).routes
  {
    var s1 := AfterFirst(net, floating, store);
    var r1, r2 := DeletePass(net, floating, store).routes, DeletePass(net, local, s1).routes;
    AfterPassKeys(net, floating, store);
    WithoutNames(store.routes, KeysOf(r1));
    hide GatewayInSubnet, UniqueKeys, UniqueNames, IsLocal, WellFormed, DeletePass, AfterPass;
    PassFinds(net, floating, store, r);
    if b in floating {
      ExistingMember(floating, store, b);
      Blocking(net, Existing(floating, store), r, b);
      assert r in r1;
    } else if r !in r1 {
      LocalStays(net, local, floating, store, b);
      ExistingMember(local, s1, b);
      Blocking(net, Existing(local, s1), r, b);
      PassFinds(net, local, s1, r);
      assert r in r2;
    }
    assert r in r1 + r2;
    var i :| 0 <= i < |r1 + r2| && (r1 + r2)[i] == r;
    assert RestoredRoutes(r1 + r2)[i] == RestoredRoute(r);
  }

  /** The first pass leaves the self IPs that are to be redeclared as local-only. */
  lemma LocalStays(net: Subnet, local: seq<SelfIp>, floating: seq<SelfIp>, store: Store, b: SelfIp)
    requires WellFormed(local, floating, store) && b in local && b.key in KeysOf(store.selfIps)
    ensures b.key in KeysOf(AfterFirst(net, floating, store).selfIps)
  {
    KeysConcat(local, floating);
    KeyIn(local, b);
    FirstPass(net, floating, store);
    AfterPassKeys(net, floating, store);
  }

  lemma Blocking(net: Subnet, doomed: seq<SelfIp>, r: Route, b: SelfIp)
    requires b in doomed && GatewayInSubnet(net, r, b)
    ensures BlocksRoute(net, doomed, r)
  {
    var i :| 0 <= i < |doomed| && doomed[i] == b;
  }

  /** A pass deletes exactly the routes it finds. */
  lemma PassFinds(net: Subnet, bodies: seq<SelfIp>, store: Store, r: Route)
    requires UniqueKeys(store.routes) && UniqueNames(store.routes) && r in store.routes
    ensures r in DeletePass(net, bodies, store).routes <==> BlocksRoute(net, Existing(bodies, store), r)
    ensures r in AfterPass(net, bodies, store).routes <==> !BlocksRoute(net, Existing(bodies, store), r)
  {
    hide GatewayInSubnet, UniqueKeys, UniqueNames;
    PassRoutes(net, bodies, store, r);
    MatchingRoutesFacts(net, Existing(bodies, store), store.routes);
    if BlocksRoute(net, Existing(bodies, store), r) {
      MatchingRoutesComplete(net, Existing(bodies, store), store.routes, r);
    }
  }

  lemma FloatLoses(net: Subnet, local: seq<SelfIp>, floating: seq<SelfIp>, store: Store, s: SelfIp, b: SelfIp)
    requires WellFormed(local, floating, store) && UniqueNames(store.selfIps) && s in store.selfIps
    requires s.key !in KeysOf(local + floating) && !IsLocal(s)
    requires b in local && b.key in KeysOf(store.selfIps) && SharesSubnet(net, s, b)
    ensures Restored(s) in Final(net, local, floating, store).selfIps
  {
    hide SharesSubnet, UniqueKeys, UniqueNames;
    var s1 := AfterFirst(net, floating, store);
    var floats := Floats(net, local, s1);
    KeysConcat(local, floating);
    KeyIn(local, b);
    AfterFirstMember(net, floating, store, s);
    AfterPassKeys(net, floating, store);
    FirstPass(net, floating, store);
    WithoutNames(store.selfIps, KeysOf(Floats(net, floating, store)) + KeysOf(Existing(floating, store)));
    ExistingFacts(local, s1);
    var existing := Existing(local, s1);
    var i :| 0 <= i < |existing| && existing[i] == b;
    MatchingFloatsComplete(net, existing, s1.selfIps, s);
    var j :| 0 <= j < |floats| && floats[j] == s;
    assert RestoredAll(floats)[j] == Restored(s);
  }

  lemma RoutesSorted(local: seq<SelfIp>, floating: seq<SelfIp>, store: Store)
    requires WellFormed(local, floating, store)
    ensures UniqueKeys(store.routes)
  {
  }

  lemma AllKeys(net: Subnet, local: seq<SelfIp>, floating: seq<SelfIp>, store: Store)
    requires WellFormed(local, floating, store) && Restorable(net, local, store)
    ensures Handle(net, local, floating, store).Some?
    ensures KeysOf(Handle(net, local, floating, store).value.store.selfIps)
      == KeysOf(store.selfIps) + KeysOf(local + floating)
  {
    hide Handle, WellFormed, Restorable, KeysOf;
    Accounted(net, local, floating, store);
    var end := Handle(net, local, floating, store).value.store;
    forall k | k in KeysOf(end.selfIps) ensures k in KeysOf(store.selfIps) + KeysOf(local + floating) {
      var s := KeyOwner(end.selfIps, k);
      if s in local + floating {
        KeyIn(local + floating, s);
      } else {
        var was :| was in store.selfIps && was.key !in KeysOf(local + floating) && (s == was || s == Restored(was));
        KeyIn(store.selfIps, was);
      }
    }
    forall k | k in KeysOf(store.selfIps) + KeysOf(local + floating) ensures k in KeysOf(end.selfIps) {
      if k in KeysOf(local + floating) {
        var b := KeyOwner(local + floating, k);
        KeyIn(end.selfIps, b);
      } else {
        var s := KeyOwner(store.selfIps, k);
        if s in end.selfIps { KeyIn(end.selfIps, s); } else { KeyIn(end.selfIps, Restored(s)); }
      }
    }
  }



  // ---------------------------------------------------------------- legality of every request

  /** Redeclared self IPs keep their address and stay local-only or floating; names are unique. */
  predicate Faithful(local: seq<SelfIp>, floating: seq<SelfIp>, store: Store)
  {
    && UniqueNames(store.selfIps) && UniqueNames(store.routes)
    && forall b <- local + floating, s <- store.selfIps | b.key == s.key ::
         b.body.address == s.body.address && (IsLocal(b) <==> IsLocal(s))
  }

  /**
   * Every route whose gateway lies in the subnet of an undeclared floating self IP next to a redeclared local-only
   * one also has its gateway in the subnet of some redeclared self IP.
   */
  predicate RoutesCovered(net: Subnet, local: seq<SelfIp>, floating: seq<SelfIp>, store: Store)
  {
    forall f <- store.selfIps, r <- store.routes |
      Neighbour(net, local, floating, store, f) && GatewayInSubnet(net, r, f) ::
      exists b <- local + floating :: b.key in KeysOf(store.selfIps) && GatewayInSubnet(net, r, b)
  }

  lemma PassLegalTail(net: Subnet, bodies: seq<SelfIp>, store: Store)
    requires UniqueKeys(store.routes)
    ensures LegalRun(net, store, DeletePass(net, bodies, store).requests) <==>
      LegalRun(net, BeforeSelfIpDeletes(net, bodies, store),
               SelfIpDeletes(Floats(net, bodies, store)) + SelfIpDeletes(Existing(bodies, store)))
  {
    PassPreparation(net, bodies, store);
    PreparationHarmless(net, bodies, store);
    PassShape(net, bodies, store);
    HarmlessRun(net, store, Preparation(net, bodies, store));
    LegalConcat(net, store, Preparation(net, bodies, store),
                SelfIpDeletes(Floats(net, bodies, store)) + SelfIpDeletes(Existing(bodies, store)));
  }

  /** A pass is legal when the deletes of its neighbouring and then of its redeclared self IPs are. */
  lemma PassLegal(net: Subnet, bodies: seq<SelfIp>, store: Store)
    requires UniqueKeys(store.routes)
    requires UniqueKeys(Floats(net, bodies, store)) && KeysOf(Floats(net, bodies, store)) <= KeysOf(store.selfIps)
    ensures LegalRun(net, store, DeletePass(net, bodies, store).requests) <==>
      && LegalRun(net, BeforeSelfIpDeletes(net, bodies, store), SelfIpDeletes(Floats(net, bodies, store)))
      && LegalRun(net, WithoutFloats(net, bodies, store), SelfIpDeletes(Existing(bodies, store)))
  {
    var floats, existing := Floats(net, bodies, store), Existing(bodies, store);
    PassLegalTail(net, bodies, store);
    DeleteSelfIps(BeforeSelfIpDeletes(net, bodies, store), floats);
    LegalConcat(net, BeforeSelfIpDeletes(net, bodies, store), SelfIpDeletes(floats), SelfIpDeletes(existing));
  }

  function WithoutFloats(net: Subnet, bodies: seq<SelfIp>, store: Store): Store
  {
    var middle := BeforeSelfIpDeletes(net, bodies, store);
    middle.(selfIps := Without(middle.selfIps, KeysOf(Floats(net, bodies, store))))
  }

  /** With unique route names a pass removes exactly the routes in the subnets of the redeclared self IPs. */
  lemma PassRoutes(net: Subnet, bodies: seq<SelfIp>, store: Store, r: Route)
    requires UniqueKeys(store.routes) && UniqueNames(store.routes) && r in store.routes
    ensures r in AfterPass(net, bodies, store).routes <==> !BlocksRoute(net, Existing(bodies, store), r)
  {
    var existing := Existing(bodies, store);
    var m := MatchingRoutes(net, existing, store.routes);
    MatchingRoutesFacts(net, existing, store.routes);
    if BlocksRoute(net, existing, r) {
      MatchingRoutesComplete(net, existing, store.routes, r);
      KeyIn(m, r);
    }
    if r.key in KeysOf(m) {
      var d := KeyOwner(m, r.key);
      SameKeySameItem(store.routes, r, d);
    }
  }

  /** The sync IP is cleared before any self IP that carries it is deleted. */
  lemma PassSync(net: Subnet, bodies: seq<SelfIp>, store: Store, b: SelfIp)
    requires b in Floats(net, bodies, store) + Existing(bodies, store)
    ensures !IsSyncAddress(net, AfterPass(net, bodies, store).syncIp, b)
  {
    var doomed := Existing(bodies, store) + Floats(net, bodies, store);
    assert b in doomed;
    var i :| 0 <= i < |doomed| && doomed[i] == b;
  }

  predicate SameSubnets(bodies: seq<SelfIp>, store: Store)
  {
    forall b <- bodies, s <- store.selfIps | b.key == s.key ::
      b.body.address == s.body.address && (IsLocal(b) <==> IsLocal(s))
  }

  /** Redeclared self IPs are never blocked when their turn comes. */
  lemma ExistingUnblocked(net: Subnet, bodies: seq<SelfIp>, store: Store, b: SelfIp, s: SelfIp)
    requires UniqueKeys(store.routes) && UniqueNames(store.routes)
    requires b in Existing(bodies, store) && s.body.address == b.body.address
    ensures Unblocked(net, BeforeSelfIpDeletes(net, bodies, store), s)
  {
    var existing := Existing(bodies, store);
    PassSync(net, bodies, store, b);
    var i :| 0 <= i < |existing| && existing[i] == b;
    forall r <- AfterPass(net, bodies, store).routes ensures !GatewayInSubnet(net, r, s) {
      PassRoutes(net, bodies, store, r);
      assert GatewayInSubnet(net, r, s) <==> GatewayInSubnet(net, r, existing[i]);
    }
  }

  /** Once the neighbours are gone, no floating self IP is left in the subnet of a redeclared local-only one. */
  lemma NeighboursGone(net: Subnet, bodies: seq<SelfIp>, store: Store, b: SelfIp, s: SelfIp)
    requires UniqueKeys(store.selfIps) && UniqueNames(store.selfIps)
    requires b in Existing(bodies, store) && s.body.address == b.body.address && IsLocal(b)
    ensures NoFloating(net, WithoutFloats(net, bodies, store).selfIps, s)
  {
    var existing := Existing(bodies, store);
    var floats := Floats(net, bodies, store);
    var i :| 0 <= i < |existing| && existing[i] == b;
    forall f <- WithoutFloats(net, bodies, store).selfIps ensures IsLocal(f) || !SharesSubnet(net, f, s) {
      assert SharesSubnet(net, f, s) <==> SharesSubnet(net, f, existing[i]);
      if SharesLocalSubnet(net, existing, f) {
        MatchingFloatsComplete(net, existing, store.selfIps, f);
        KeyIn(floats, f);
      }
    }
  }

  lemma SameSubnetsAt(bodies: seq<SelfIp>, store: Store, b: SelfIp, s: SelfIp)
    requires SameSubnets(bodies, store) && b in bodies && s in store.selfIps && b.key == s.key
    ensures b.body.address == s.body.address && (IsLocal(b) <==> IsLocal(s))
  {
  }

  lemma ExistingFree(net: Subnet, bodies: seq<SelfIp>, store: Store, s: SelfIp)
    requires UniqueKeys(store.selfIps) && UniqueKeys(store.routes)
    requires UniqueNames(store.selfIps) && UniqueNames(store.routes) && SameSubnets(bodies, store)
    requires s in store.selfIps && s.key in KeysOf(Existing(bodies, store))
    ensures Free(net, WithoutFloats(net, bodies, store), s)
  {
    var b := KeyOwner(Existing(bodies, store), s.key);
    ExistingMember(bodies, store, b);
    SameSubnetsAt(bodies, store, b, s);
    ExistingUnblocked(net, bodies, store, b, s);
    if IsLocal(b) {
      NeighboursGone(net, bodies, store, b, s);
    }
  }

  /** The redeclared self IPs of a faithful pass can always be deleted legally. */
  lemma ExistingLegal(net: Subnet, bodies: seq<SelfIp>, store: Store)
    requires UniqueKeys(store.selfIps) && UniqueKeys(store.routes) && UniqueKeys(bodies)
    requires UniqueNames(store.selfIps) && UniqueNames(store.routes) && SameSubnets(bodies, store)
    requires KeysOf(Floats(net, bodies, store)) !! KeysOf(Existing(bodies, store))
    ensures LegalRun(net, WithoutFloats(net, bodies, store), SelfIpDeletes(Existing(bodies, store)))
  {
    var existing := Existing(bodies, store);
    var m := WithoutFloats(net, bodies, store);
    ExistingKeys(bodies, store);
    WithoutKeys(store.selfIps, KeysOf(Floats(net, bodies, store)));
    forall s <- m.selfIps | s.key in KeysOf(existing) ensures Free(net, m, s) {
      ExistingFree(net, bodies, store, s);
    }
    LegalDeletes(net, m, existing);
  }

  lemma PassDistinct(net: Subnet, bodies: seq<SelfIp>, store: Store)
    requires UniqueKeys(store.selfIps) && SameSubnets(bodies, store)
    requires (forall b <- bodies :: IsLocal(b)) || (forall b <- bodies :: !IsLocal(b))
    ensures KeysOf(Floats(net, bodies, store)) !! KeysOf(Existing(bodies, store))
  {
    var existing := Existing(bodies, store);
    var floats := Floats(net, bodies, store);
    ExistingFacts(bodies, store);
    MatchingFloatsFacts(net, existing, store.selfIps);
    if forall b <- bodies :: !IsLocal(b) {
      NoFloats(net, existing, store.selfIps);
    }
    DisjointKeys(floats, existing);
  }

  /** A pass over faithful bodies is legal exactly when none of the neighbouring floating self IPs is blocked. */
  lemma PassLegalIff(net: Subnet, bodies: seq<SelfIp>, store: Store)
    requires UniqueKeys(store.selfIps) && UniqueKeys(store.routes) && UniqueKeys(bodies)
    requires UniqueNames(store.selfIps) && UniqueNames(store.routes) && SameSubnets(bodies, store)
    requires (forall b <- bodies :: IsLocal(b)) || (forall b <- bodies :: !IsLocal(b))
    ensures LegalRun(net, store, DeletePass(net, bodies, store).requests) <==>
      forall f <- Floats(net, bodies, store) :: Unblocked(net, BeforeSelfIpDeletes(net, bodies, store), f)
  {
    var floats := Floats(net, bodies, store);
    var middle := BeforeSelfIpDeletes(net, bodies, store);
    MatchingFloatsFacts(net, Existing(bodies, store), store.selfIps);
    PassLegal(net, bodies, store);
    PassDistinct(net, bodies, store);
    ExistingLegal(net, bodies, store);
    if forall f <- floats :: Unblocked(net, middle, f) {
      forall s <- middle.selfIps | s.key in KeysOf(floats) ensures Free(net, middle, s) {
        var f := KeyOwner(floats, s.key);
        SameKeySameItem(store.selfIps, s, f);
      }
      LegalDeletes(net, middle, floats);
    } else {
      var f :| f in floats && !Unblocked(net, middle, f);
      IllegalDelete(net, middle, floats, f);
    }
  }

  lemma FaithfulCompletes(net: Subnet, local: seq<SelfIp>, floating: seq<SelfIp>, store: Store)
    requires WellFormed(local, floating, store) && Faithful(local, floating, store)
    ensures Restorable(net, local, store) && Handle(net, local, floating, store).Some?
  {
    forall f <- store.selfIps, n <- local | !IsLocal(f) ensures f.key !in KeysOf(local) {
      forall b <- local ensures b.key != f.key {
        assert b in local + floating;
      }
      NotAKey(local, f.key);
    }
    Accounted(net, local, floating, store);
  }

  /** The second pass meets a faithful store again. */
  lemma SecondPassFaithful(net: Subnet, local: seq<SelfIp>, floating: seq<SelfIp>, store: Store)
    requires WellFormed(local, floating, store) && Faithful(local, floating, store)
    ensures SameSubnets(local, AfterFirst(net, floating, store)) && SameSubnets(floating, store)
    ensures UniqueNames(AfterFirst(net, floating, store).selfIps)
    ensures UniqueNames(AfterFirst(net, floating, store).routes)
  {
    WithoutNames(store.selfIps, KeysOf(Floats(net, floating, store)) + KeysOf(Existing(floating, store)));
    WithoutNames(store.routes, KeysOf(DeletePass(net, floating, store).routes));
    FaithfulSubnets(local, floating, store, AfterFirst(net, floating, store));
    hide SameSubnets;
  }

  lemma FaithfulSubnets(local: seq<SelfIp>, floating: seq<SelfIp>, store: Store, smaller: Store)
    requires Faithful(local, floating, store) && forall s <- smaller.selfIps :: s in store.selfIps
    ensures SameSubnets(local, smaller) && SameSubnets(floating, store)
  {
    hide UniqueNames;
    assert forall b <- floating :: b in local + floating;
    assert forall b <- local :: b in local + floating;
  }

  /** The condition on the second pass, in terms of the store the handler starts from. */
  lemma CoveredIff(net: Subnet, local: seq<SelfIp>, floating: seq<SelfIp>, store: Store)
    requires WellFormed(local, floating, store) && Faithful(local, floating, store)
    ensures var s1 := AfterFirst(net, floating, store);
      RoutesCovered(net, local, floating, store) <==>
      forall f <- Floats(net, local, s1) :: Unblocked(net, BeforeSelfIpDeletes(net, local, s1), f)
  {
    var s1 := AfterFirst(net, floating, store);
    var middle := BeforeSelfIpDeletes(net, local, s1);
    var floats := Floats(net, local, s1);
    if RoutesCovered(net, local, floating, store) {
      forall f <- floats ensures Unblocked(net, middle, f) {
        FloatUnblocked(net, local, floating, store, f);
      }
    }
    if forall f <- floats :: Unblocked(net, middle, f) {
      forall f <- store.selfIps, r <- store.routes |
        Neighbour(net, local, floating, store, f) && GatewayInSubnet(net, r, f)
        ensures exists b <- local + floating :: b.key in KeysOf(store.selfIps) && GatewayInSubnet(net, r, b)
      {
        NeighboursAreFloats(net, local, floating, store, f);
        assert r !in middle.routes;
        RouteOwner(net, local, floating, store, r);
      }
    }
  }

  /** A route missing before the second pass deletes self IPs lies in the subnet of a redeclared self IP. */
  lemma RouteOwner(net: Subnet, local: seq<SelfIp>, floating: seq<SelfIp>, store: Store, r: Route)
    requires WellFormed(local, floating, store) && Faithful(local, floating, store) && r in store.routes
    requires r !in AfterPass(net, local, AfterFirst(net, floating, store)).routes
    ensures exists b <- local + floating :: b.key in KeysOf(store.selfIps) && GatewayInSubnet(net, r, b)
  {
    var s1 := AfterFirst(net, floating, store);
    FirstPass(net, floating, store);
    AfterPassKeys(net, floating, store);
    SecondPassFaithful(net, local, floating, store);
    PassRoutes(net, floating, store, r);
    if r in s1.routes {
      PassRoutes(net, local, s1, r);
      ExistingFacts(local, s1);
      var e2 := Existing(local, s1);
      var i :| 0 <= i < |e2| && GatewayInSubnet(net, r, e2[i]);
      assert e2[i] in e2 && e2[i] in local + floating;
    } else {
      ExistingFacts(floating, store);
      var e1 := Existing(floating, store);
      var i :| 0 <= i < |e1| && GatewayInSubnet(net, r, e1[i]);
      assert e1[i] in e1 && e1[i] in local + floating;
    }
  }

  lemma FloatUnblocked(net: Subnet, local: seq<SelfIp>, floating: seq<SelfIp>, store: Store, f: SelfIp)
    requires WellFormed(local, floating, store) && Faithful(local, floating, store)
    requires RoutesCovered(net, local, floating, store)
    requires f in Floats(net, local, AfterFirst(net, floating, store))
    ensures Unblocked(net, BeforeSelfIpDeletes(net, local, AfterFirst(net, floating, store)), f)
  {
    var s1 := AfterFirst(net, floating, store);
    FloatsAreNeighbours(net, local, floating, store, f);
    PassSync(net, local, s1, f);
    forall r <- AfterPass(net, local, s1).routes ensures !GatewayInSubnet(net, r, f) {
      SurvivingRoute(net, local, floating, store, r);
    }
  }

  /** A route that survives both searches has its gateway in no redeclared self IP's subnet. */
  lemma SurvivingRoute(net: Subnet, local: seq<SelfIp>, floating: seq<SelfIp>, store: Store, r: Route)
    requires WellFormed(local, floating, store) && Faithful(local, floating, store)
    requires r in AfterPass(net, local, AfterFirst(net, floating, store)).routes
    ensures r in store.routes
    ensures forall b <- local + floating | b.key in KeysOf(store.selfIps) :: !GatewayInSubnet(net, r, b)
  {
    var s1 := AfterFirst(net, floating, store);
    AfterPassKeys(net, floating, store);
    SecondPassFaithful(net, local, floating, store);
    PassRoutes(net, floating, store, r);
    PassRoutes(net, local, s1, r);
    forall b <- local + floating | b.key in KeysOf(store.selfIps) ensures !GatewayInSubnet(net, r, b) {
      SecondExisting(net, local, floating, store, b);
      ExistingMember(floating, store, b);
      NotBlocking(net, Existing(floating, store), r, b);
      NotBlocking(net, Existing(local, s1), r, b);
    }
  }

  lemma NotBlocking(net: Subnet, doomed: seq<SelfIp>, r: Route, b: SelfIp)
    requires !BlocksRoute(net, doomed, r)
    ensures b in doomed ==> !GatewayInSubnet(net, r, b)
  {
    if b in doomed {
      var i :| 0 <= i < |doomed| && doomed[i] == b;
    }
  }

  /**
   * For faithful declarations the handler always completes, and every request it sends is legal exactly when the
   * routes behind neighbouring floating self IPs are covered.
   */
  lemma LegalityIff(net: Subnet, local: seq<SelfIp>, floating: seq<SelfIp>, store: Store)
    requires WellFormed(local, floating, store) && Faithful(local, floating, store)
    ensures Handle(net, local, floating, store).Some?
    ensures var outcome := Handle(net, local, floating, store).value;
      LegalRun(net, store, outcome.deletes + outcome.creates) <==> RoutesCovered(net, local, floating, store)
  {
    var s1 := AfterFirst(net, floating, store);
    var p1, p2 := DeletePass(net, floating, store), DeletePass(net, local, s1);
    FaithfulCompletes(net, local, floating, store);
    KeysConcat(local, floating);
    FirstPass(net, floating, store);
    PassEffect(net, floating, store);
    AfterPassKeys(net, floating, store);
    SecondPassFaithful(net, local, floating, store);
    var outcome := Handle(net, local, floating, store).value;
    RunConcat(store, p1.requests, p2.requests);
    CreatesAreHarmless(net, local, floating, store);
    LegalConcat(net, store, outcome.deletes, outcome.creates);
    LegalConcat(net, store, p1.requests, p2.requests);
    PassLegalIff(net, floating, store);
    PassLegalIff(net, local, s1);
    CoveredIff(net, local, floating, store);
  }

  lemma NoDeletesInCreates(local: seq<SelfIp>, floating: seq<SelfIp>, floats: seq<SelfIp>, sync: Option<string>,
                           routes: seq<Route>)
    ensures forall q <- Creates(local, floating, floats, sync, routes) :: !q.DeleteSelfIp?
  {
  }

  lemma CreatesAreHarmless(net: Subnet, local: seq<SelfIp>, floating: seq<SelfIp>, store: Store)
    requires Handle(net, local, floating, store).Some?
    ensures var outcome := Handle(net, local, floating, store).value;
      && Run(store, outcome.deletes).Some?
      && LegalRun(net, Run(store, outcome.deletes).value, outcome.creates)
  {
    var p1 := DeletePass(net, floating, store);
    var s1 := Run(store, p1.requests).value;
    var p2 := DeletePass(net, local, s1);
    var outcome := Handle(net, local, floating, store).value;
    RunConcat(store, p1.requests, p2.requests);
    NoDeletesInCreates(local, floating, p1.floats + p2.floats, FirstOf(p1.syncIp, p2.syncIp), p1.routes + p2.routes);
    HarmlessRun(net, Run(store, outcome.deletes).value, outcome.creates);
  }
}
