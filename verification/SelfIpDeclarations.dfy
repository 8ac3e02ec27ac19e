/** The self-IP theorems, stated for a parsed declaration, and the order in which things are created. */
module SelfIpDeclarations {
  import opened Prelude
  import opened Text
  import opened SelfIpStore
  import opened SelfIpHandler
  import opened SelfIpTheorems

  function KeyOf(d: Declared): Key { Key(d.tenant, d.name) }

  /** Object names are unique within a tenant and every traffic group is set, as the schema's default makes it. */
  predicate ValidDeclaration(declared: seq<Declared>)
  {
    && (forall d <- declared :: d.trafficGroup != "")
    && forall i, j | 0 <= i < j < |declared| :: KeyOf(declared[i]) != KeyOf(declared[j])
  }

  predicate ValidStore(store: Store)
  {
    UniqueKeys(store.selfIps) && UniqueKeys(store.routes) && forall s <- store.selfIps :: s.body.trafficGroup != ""
  }

  lemma {:induction false} BodiesMember(declared: seq<Declared>, afm: bool, floating: bool, s: SelfIp)
    ensures s in Bodies(declared, afm, floating) <==>
      exists d <- declared :: d.name != "" && s == BodyOf(d, afm) && IsFloatingBody(s) == floating
    decreases |declared|
  {
    if declared != [] {
      var n := |declared| - 1;
      BodiesMember(declared[..n], afm, floating, s);
      assert declared == declared[..n] + [declared[n]];
    }
  }

  function DeclaredKeys(declared: seq<Declared>): set<Key>
  {
    set d <- declared :: KeyOf(d)
  }

  /** Every named self IP of the declaration becomes exactly one body, local-only or floating. */
  lemma {:induction false} BodiesUnique(declared: seq<Declared>, afm: bool)
    requires ValidDeclaration(declared)
    ensures UniqueKeys(Bodies(declared, afm, false) + Bodies(declared, afm, true))
    ensures KeysOf(Bodies(declared, afm, false) + Bodies(declared, afm, true)) <= DeclaredKeys(declared)
    decreases |declared|
  {
    var local, floating := Bodies(declared, afm, false), Bodies(declared, afm, true);
    if declared == [] {
      assert local + floating == [];
    } else {
      var n := |declared| - 1;
      var d := declared[n];
      var l, f := Bodies(declared[..n], afm, false), Bodies(declared[..n], afm, true);
      BodiesUnique(declared[..n], afm);
      assert KeyOf(d) !in DeclaredKeys(declared[..n]) by {
        assert forall i | 0 <= i < n :: declared[..n][i] == declared[i];
      }
      assert DeclaredKeys(declared[..n]) <= DeclaredKeys(declared);
      OneMore(l, f, BodyOf(d, afm));
    }
  }

  lemma OneMore(l: seq<SelfIp>, f: seq<SelfIp>, x: SelfIp)
    requires UniqueKeys(l + f) && x.key !in KeysOf(l + f)
    ensures UniqueKeys((l + [x]) + f) && KeysOf((l + [x]) + f) == KeysOf(l + f) + {x.key}
    ensures UniqueKeys(l + (f + [x])) && KeysOf(l + (f + [x])) == KeysOf(l + f) + {x.key}
  {
    assert KeysOf([x]) == {x.key} && UniqueKeys([x]);
    KeysConcat(l, f);
    KeysConcat(l, [x]);
    KeysConcat(f, [x]);
    KeysConcat(l + [x], f);
    KeysConcat(l, f + [x]);
  }

  lemma BodiesWellFormed(declared: seq<Declared>, afm: bool, store: Store)
    requires ValidDeclaration(declared) && ValidStore(store)
    ensures WellFormed(Bodies(declared, afm, false), Bodies(declared, afm, true), store)
  {
    var local, floating := Bodies(declared, afm, false), Bodies(declared, afm, true);
    BodiesUnique(declared, afm);
    forall s: SelfIp | s in local + floating ensures IsFloatingBody(s) == !IsLocal(s) {
      BodiesMember(declared, afm, false, s);
      BodiesMember(declared, afm, true, s);
    }
    forall b <- local ensures IsLocal(b) {
      assert b in local + floating;
      BodiesMember(declared, afm, false, b);
    }
    forall b <- floating ensures !IsLocal(b) {
      assert b in local + floating;
      BodiesMember(declared, afm, true, b);
    }
  }

  /** The properties of a self IP, one by one, as its declaration says; `afm`: the firewall module is provisioned. */
  predicate AsDeclared(d: Declared, afm: bool, body: SelfIpBody)
  {
    && (if "/" <= d.vlan then body.vlan == d.vlan else body.vlan == "/" + d.tenant + "/" + d.vlan)
    && body.address == d.address && body.trafficGroup == d.trafficGroup && body.allowService == d.allowService
    && PolicyAsDeclared(d.tenant, d.fwEnforcedPolicy, afm, body.fwEnforcedPolicy)
    && PolicyAsDeclared(d.tenant, d.fwStagedPolicy, afm, body.fwStagedPolicy)
    && body.other == ""
  }

  /** A given policy is looked for in the tenant; without one, "none" is sent if the device knows policies. */
  predicate PolicyAsDeclared(tenant: string, declared: Option<string>, afm: bool, policy: Option<string>)
  {
    && (declared.Some? && declared.value != "" ==> policy == Some("/" + tenant + "/" + declared.value))
    && (declared.None? || declared.value == "" ==> (afm ==> policy == Some("none")) && (!afm ==> policy.None?))
  }

  lemma BodyAsDeclared(d: Declared, afm: bool)
    ensures AsDeclared(d, afm, BodyOf(d, afm).body)
  {
    assert "/" <= d.vlan <==> d.vlan != "" && d.vlan[0] == '/';
  }

  lemma DeclaredBody(declared: seq<Declared>, afm: bool, d: Declared)
    requires d in declared && d.name != ""
    ensures BodyOf(d, afm) in Bodies(declared, afm, false) + Bodies(declared, afm, true)
  {
    BodiesMember(declared, afm, IsFloatingBody(BodyOf(d, afm)), BodyOf(d, afm));
  }

  /** The full paths of the bodies are those of the named self IPs. */
  lemma BodyKeys(declared: seq<Declared>, afm: bool)
    ensures KeysOf(Bodies(declared, afm, false) + Bodies(declared, afm, true))
      == set d <- declared | d.name != "" :: Key(d.tenant, d.name)
  {
    var bodies := Bodies(declared, afm, false) + Bodies(declared, afm, true);
    hide Bodies;
    forall k | k in KeysOf(bodies) ensures exists d <- declared :: d.name != "" && Key(d.tenant, d.name) == k {
      var s := KeyOwner(bodies, k);
      BodiesMember(declared, afm, false, s);
      BodiesMember(declared, afm, true, s);
    }
    forall d <- declared | d.name != "" ensures Key(d.tenant, d.name) in KeysOf(bodies) {
      DeclaredBody(declared, afm, d);
      KeyIn(bodies, BodyOf(d, afm));
    }
  }

  /** What is on the device under the full path of a declared self IP is what the declaration says. */
  lemma DeclaredContents(net: Subnet, declared: seq<Declared>, afm: bool, store: Store, d: Declared, x: SelfIp)
    requires ValidDeclaration(declared) && ValidStore(store) && d in declared && d.name != ""
    requires Restorable(net, Bodies(declared, afm, false), store)
    requires var outcome := Handle(net, Bodies(declared, afm, false), Bodies(declared, afm, true), store);
      outcome.Some? && x in outcome.value.store.selfIps && x.key == Key(d.tenant, d.name)
    ensures AsDeclared(d, afm, x.body)
  {
    hide Handle, Bodies, ValidDeclaration, ValidStore, Restorable, BodyOf, AsDeclared;
    BodiesWellFormed(declared, afm, store);
    Conservation(net, Bodies(declared, afm, false), Bodies(declared, afm, true), store);
    DeclaredBody(declared, afm, d);
    KeyOfBody(d, afm);
    BodyAsDeclared(d, afm);
    var end := Handle(net, Bodies(declared, afm, false), Bodies(declared, afm, true), store).value.store;
    SameKeySameItem(end.selfIps, x, BodyOf(d, afm));
  }

  lemma KeyOfBody(d: Declared, afm: bool)
    ensures BodyOf(d, afm).key == Key(d.tenant, d.name)
  {
  }

  /**
   * Conservation for declarations: the full paths are those of the named self IPs of the declaration and of the device,
   * each once; a declared one has the declared properties, every other one and every route its old ones, and the
   * config-sync IP is back.
   */
  lemma DeclarationConserves(net: Subnet, declared: seq<Declared>, afm: bool, store: Store)
    requires ValidDeclaration(declared) && ValidStore(store)
    requires Restorable(net, Bodies(declared, afm, false), store)
    ensures Handle(net, Bodies(declared, afm, false), Bodies(declared, afm, true), store).Some?
    ensures var end := Handle(net, Bodies(declared, afm, false), Bodies(declared, afm, true), store).value.store;
      var paths := set d <- declared | d.name != "" :: Key(d.tenant, d.name);
      && UniqueKeys(end.selfIps) && KeysOf(end.selfIps) == KeysOf(store.selfIps) + paths
      && UniqueKeys(end.routes) && KeysOf(end.routes) == KeysOf(store.routes)
      && end.syncIp == store.syncIp
      && (forall d <- declared, x <- end.selfIps | d.name != "" && x.key == Key(d.tenant, d.name) ::
            AsDeclared(d, afm, x.body))
      && (forall s <- store.selfIps, x <- end.selfIps | x.key == s.key && s.key !in paths ::
            && x.body.vlan == s.body.vlan && x.body.address == s.body.address
            && x.body.trafficGroup == s.body.trafficGroup && x.body.allowService == s.body.allowService
            && x.body.fwEnforcedPolicy == s.body.fwEnforcedPolicy && x.body.fwStagedPolicy == s.body.fwStagedPolicy)
      && (forall r <- store.routes, x <- end.routes | x.key == r.key ::
            x.body.gw == r.body.gw && x.body.network == r.body.network && x.body.mtu == r.body.mtu)
  {
    BodyKeys(declared, afm);
    BodiesWellFormed(declared, afm, store);
    hide Handle, Bodies, ValidDeclaration, ValidStore, Restorable, KeysOf, UniqueKeys, WellFormed, AsDeclared;
    var local, floating := Bodies(declared, afm, false), Bodies(declared, afm, true);
    Conservation(net, local, floating, store);
    var end := Handle(net, local, floating, store).value.store;
    forall d <- declared, x <- end.selfIps | d.name != "" && x.key == Key(d.tenant, d.name)
      ensures AsDeclared(d, afm, x.body)
    {
      DeclaredContents(net, declared, afm, store, d, x);
    }
  }

  // ---------------------------------------------------------------- creation order

  /** Deletes first; then local-only, declared floating and restored self IPs, the sync IP, the routes. */
  function Phase(local: seq<SelfIp>, floating: seq<SelfIp>, request: Request): nat
  {
    match request
    case CreateSelfIp(s) => if s.key in KeysOf(local) then 1 else if s.key in KeysOf(floating) then 2 else 3
    case SetSyncIp(ip) => 4
    case CreateRoute(r) => 5
    case _ => 0
  }

  predicate InPhase(local: seq<SelfIp>, floating: seq<SelfIp>, requests: seq<Request>, phase: nat)
  {
    forall i | 0 <= i < |requests| :: Phase(local, floating, requests[i]) == phase
  }

  predicate InOrder(local: seq<SelfIp>, floating: seq<SelfIp>, requests: seq<Request>, least: nat)
  {
    && (forall i | 0 <= i < |requests| :: least <= Phase(local, floating, requests[i]))
    && forall i, j | 0 <= i < j < |requests| ::
         Phase(local, floating, requests[i]) <= Phase(local, floating, requests[j])
  }

  lemma OrderConcat(local: seq<SelfIp>, floating: seq<SelfIp>, a: seq<Request>, b: seq<Request>, p: nat, q: nat)
    requires InPhase(local, floating, a, p) && InOrder(local, floating, b, q) && p <= q
    ensures InOrder(local, floating, a + b, p)
  {
  }

  lemma CreatesInOrder(local: seq<SelfIp>, floating: seq<SelfIp>, floats: seq<SelfIp>, sync: Option<string>,
                       routes: seq<Route>)
    requires KeysOf(local) !! KeysOf(floating)
    requires InPhase(local, floating, SelfIpCreates(RestoredAll(floats)), 3)
    ensures InOrder(local, floating, Creates(local, floating, floats, sync, routes), 1)
  {
    forall i | 0 <= i < |local| ensures local[i].key in KeysOf(local) { KeyIn(local, local[i]); }
    forall i | 0 <= i < |floating| ensures floating[i].key in KeysOf(floating) { KeyIn(floating, floating[i]); }
    var c5 := RouteCreates(RestoredRoutes(routes));
    var c4 := RestoreSync(sync) + c5;
    var c3 := SelfIpCreates(RestoredAll(floats)) + c4;
    OrderConcat(local, floating, RestoreSync(sync), c5, 4, 5);
    OrderConcat(local, floating, SelfIpCreates(RestoredAll(floats)), c4, 3, 4);
    OrderConcat(local, floating, SelfIpCreates(floating), c3, 2, 3);
    OrderConcat(local, floating, SelfIpCreates(local), SelfIpCreates(floating) + c3, 1, 2);
  }

  lemma DeletesCreateNothing(net: Subnet, bodies: seq<SelfIp>, store: Store)
    ensures forall q <- DeletePass(net, bodies, store).requests :: !q.CreateSelfIp? && !q.CreateRoute?
  {
  }

  /** The creation half runs in this order, whatever had to be restored. */
  lemma CreationOrder(net: Subnet, local: seq<SelfIp>, floating: seq<SelfIp>, store: Store)
    requires WellFormed(local, floating, store) && Restorable(net, local, store)
    ensures Handle(net, local, floating, store).Some?
    ensures InOrder(local, floating, Handle(net, local, floating, store).value.creates, 1)
    ensures forall q <- Handle(net, local, floating, store).value.deletes :: !q.CreateSelfIp? && !q.CreateRoute?
  {
    var s1 := AfterFirst(net, floating, store);
    var p1, p2 := DeletePass(net, floating, store), DeletePass(net, local, s1);
    Accounted(net, local, floating, store);
    RestorableSuffices(net, local, floating, store);
    KeysConcat(local, floating);
    FirstPass(net, floating, store);
    PassEffect(net, floating, store);
    RestoredArePhase3(net, local, floating, store);
    CreatesInOrder(local, floating, p1.floats + p2.floats, FirstOf(p1.syncIp, p2.syncIp), p1.routes + p2.routes);
    DeletesCreateNothing(net, floating, store);
    DeletesCreateNothing(net, local, s1);
  }

  lemma RestoredArePhase3(net: Subnet, local: seq<SelfIp>, floating: seq<SelfIp>, store: Store)
    requires WellFormed(local, floating, store) && NoDoubleDelete(net, local, floating, store)
    ensures var s1 := AfterFirst(net, floating, store);
      var floats := DeletePass(net, floating, store).floats + DeletePass(net, local, s1).floats;
      InPhase(local, floating, SelfIpCreates(RestoredAll(floats)), 3)
  {
    var s1 := AfterFirst(net, floating, store);
    var floats := Floats(net, local, s1);
    PutBackAll(net, local, floating, store);
    SurvivorsUndeclared(net, local, floating, store);
    KeysConcat(local, floating);
    forall i | 0 <= i < |floats| ensures floats[i].key !in KeysOf(local) + KeysOf(floating) {
      assert floats[i] in AfterPass(net, local, s1).selfIps + floats;
    }
  }

  // ---------------------------------------------------------------- where legality fails

  const NARROW: SelfIp := Item(Key("Common", "n"),
    SelfIpBody("v", "10.0.0.1/24", "traffic-group-local-only", "none", None, None, ""))
  const WIDE: SelfIp := Item(Key("Common", "w"), SelfIpBody("v", "10.0.0.5/16", "tg-1", "none", None, None, ""))
  const BEHIND_WIDE: Route := Item(Key("Common", "r"), RouteBody(Some("10.0.7.1"), "default", 0, ""))
  const WIDE_STORE := Store([NARROW, WIDE], [BEHIND_WIDE], "none")

  /** The address up to its n-th dot. */
  function UpToDot(address: string, n: nat): string
  {
    if n == 0 || address == "" then ""
    else [address[0]] + UpToDot(address[1..], if address[0] == '.' then n - 1 else n)
  }

  /** Membership in an IPv4 subnet whose mask has 8, 16 or 24 bits. */
  predicate InSubnet(ip: string, cidr: string)
  {
    var octets := if EndsWith(cidr, "/24") then 3 else if EndsWith(cidr, "/16") then 2 else 1;
    UpToDot(ip, octets) == UpToDot(cidr, octets)
  }

  const WIDE_NET := AddressRules((ip, cidr) => InSubnet(ip, cidr))

  lemma {:induction false} UpToDotOctet(octet: string, rest: string, n: nat)
    requires '.' !in octet && n > 0
    ensures UpToDot(octet + "." + rest, n) == octet + "." + UpToDot(rest, n - 1)
  {
    var address := octet + "." + rest;
    if octet == "" {
      assert address[1..] == rest;
    } else {
      assert address[1..] == octet[1..] + "." + rest;
      UpToDotOctet(octet[1..], rest, n);
      assert octet == [octet[0]] + octet[1..];
    }
  }

  lemma UpToThird(a: string, b: string, c: string, rest: string)
    requires '.' !in a && '.' !in b && '.' !in c
    ensures UpToDot(a + "." + (b + "." + (c + "." + rest)), 3) == a + "." + (b + "." + (c + "." + ""))
    ensures UpToDot(a + "." + (b + "." + (c + "." + rest)), 2) == a + "." + (b + "." + "")
  {
    UpToDotOctet(a, b + "." + (c + "." + rest), 3);
    UpToDotOctet(b, c + "." + rest, 2);
    UpToDotOctet(c, rest, 1);
    UpToDotOctet(a, b + "." + (c + "." + rest), 2);
    UpToDotOctet(b, c + "." + rest, 1);
  }

  lemma WideSubnets()
    ensures InSubnet("10.0.0.5", "10.0.0.1/24")
    ensures InSubnet("10.0.7.1", "10.0.0.5/16") && !InSubnet("10.0.7.1", "10.0.0.1/24")
  {
    hide UpToDot;
    var tail := "10" + "." + ("0" + "." + ("7" + "." + ""));
    assert "10.0.0.5" == "10" + "." + ("0" + "." + ("0" + "." + "5"));
    assert "10.0.7.1" == "10" + "." + ("0" + "." + ("7" + "." + "1"));
    assert "10.0.0.1/24" == "10" + "." + ("0" + "." + ("0" + "." + "1/24"));
    assert "10.0.0.5/16" == "10" + "." + ("0" + "." + ("0" + "." + "5/16"));
    UpToThird("10", "0", "0", "5");
    UpToThird("10", "0", "7", "1");
    UpToThird("10", "0", "0", "1/24");
    UpToThird("10", "0", "0", "5/16");
    assert "10.0.0.1/24"[8..] == "/24" && "10.0.0.5/16"[8..] == "/16" && "/16"[1] != "/24"[1];
    assert tail[5] == '7';
  }

  lemma WideAddresses()
    ensures StripCidr("10.0.0.5/16") == "10.0.0.5"
    ensures forall a <- ["10.0.7.1", "10.0.0.5/16", "10.0.0.1/24"] :: StripExistingRouteDomainId(a) == a
  {
    hide RemoveRouteDomain, Split;
    assert "10.0.0.5/16" == "10.0.0.5" + "/" + "16";
    SplitPrefix("10.0.0.5", "16", "/");
  }

  /** The comparisons of the code on these addresses. */
  lemma WideComparisons()
    ensures SharesSubnet(WIDE_NET, WIDE, NARROW)
    ensures GatewayInSubnet(WIDE_NET, BEHIND_WIDE, WIDE) && !GatewayInSubnet(WIDE_NET, BEHIND_WIDE, NARROW)
  {
    hide InSubnet, StripCidr, StripExistingRouteDomainId;
    WideSubnets();
    WideAddresses();
    var gateway, wide, narrow := "10.0.7.1", WIDE.body.address, NARROW.body.address;
    assert [gateway, wide, narrow][0] == gateway && [gateway, wide, narrow][1] == wide;
    assert [gateway, wide, narrow][2] == narrow;
    assert WIDE_NET.gatewayIn(gateway, wide) && !WIDE_NET.gatewayIn(gateway, narrow);
  }

  lemma WideStoreFaithful()
    ensures WellFormed([NARROW], [], WIDE_STORE) && Faithful([NARROW], [], WIDE_STORE)
    ensures WIDE.key !in KeysOf<SelfIpBody>([]) && NARROW.key in KeysOf(WIDE_STORE.selfIps)
    ensures !IsLocal(WIDE) && NARROW.body.address != WIDE.body.address
  {
    assert NARROW.body.address[7] == '1' && WIDE.body.address[7] == '5';
    assert NARROW.body.trafficGroup[0..] == "traffic-group-local-only";
    assert NARROW.key.name != WIDE.key.name;
    assert WIDE_STORE.selfIps[1..] == [WIDE] && [WIDE][1..] == [];
    assert KeysOf([WIDE]) == {WIDE.key} && UniqueKeys([WIDE]);
    assert UniqueKeys(WIDE_STORE.selfIps);
    assert WIDE_STORE.routes[1..] == [];
    assert [NARROW] + [] == [NARROW] && [NARROW][1..] == [];
  }

  /**
   * A floating self IP with a wider subnet than its local-only neighbour: the route behind it is not removed,
   * so the floating self IP is deleted while a gateway still depends on it.
   */
  lemma WideFloatingSubnetIsIllegal()
    ensures Handle(WIDE_NET, [NARROW], [], WIDE_STORE).Some?
    ensures var outcome := Handle(WIDE_NET, [NARROW], [], WIDE_STORE).value;
      !LegalRun(WIDE_NET, WIDE_STORE, outcome.deletes + outcome.creates)
  {
    WideStoreFaithful();
    WideComparisons();
    assert SharesSubnet(WIDE_NET, WIDE, NARROW) && NARROW in [NARROW];
    assert WIDE in WIDE_STORE.selfIps && BEHIND_WIDE in WIDE_STORE.routes;
    assert Neighbour(WIDE_NET, [NARROW], [], WIDE_STORE, WIDE);
    assert GatewayInSubnet(WIDE_NET, BEHIND_WIDE, WIDE) && !GatewayInSubnet(WIDE_NET, BEHIND_WIDE, NARROW);
    LegalityIff(WIDE_NET, [NARROW], [], WIDE_STORE);
  }

  // ---------------------------------------------------------------- where a run breaks off

  const NOW_LOCAL: SelfIp := Item(Key("Common", "w"),
    SelfIpBody("v", "10.0.0.5/16", "traffic-group-local-only", "none", None, None, ""))

  /**
   * The floating self IP is redeclared as local-only next to its neighbour: it is to be deleted once as a neighbour
   * and once as an existing self IP, and the handler does not complete.
   */
  lemma FloatingTurnedLocalFails()
    ensures Handle(WIDE_NET, [NARROW, NOW_LOCAL], [], WIDE_STORE).None?
  {
    hide Handle;
    TurnedLocalFaithful();
    WideStoreFaithful();
    WideComparisons();
    var local := [NARROW, NOW_LOCAL];
    assert local[0] == NARROW && WIDE in WIDE_STORE.selfIps;
    CompletesIff(WIDE_NET, local, [], WIDE_STORE);
  }

  lemma TurnedLocalFaithful()
    ensures WellFormed([NARROW, NOW_LOCAL], [], WIDE_STORE) && UniqueNames(WIDE_STORE.selfIps)
    ensures WIDE.key in KeysOf([NARROW, NOW_LOCAL])
  {
    WideStoreFaithful();
    var local := [NARROW, NOW_LOCAL];
    assert NOW_LOCAL.body.trafficGroup[0..] == "traffic-group-local-only";
    assert NARROW.body.trafficGroup[0..] == "traffic-group-local-only";
    assert NARROW.key.name != WIDE.key.name;
    assert local[1..] == [NOW_LOCAL] && [NOW_LOCAL][1..] == [] && local + [] == local;
    assert KeysOf([NOW_LOCAL]) == {WIDE.key} && UniqueKeys([NOW_LOCAL]);
    assert WIDE_STORE.selfIps[1..] == [WIDE] && [WIDE][1..] == [];
  }
}
