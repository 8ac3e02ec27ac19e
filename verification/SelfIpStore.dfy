/**
 * The part of a BIG-IP that self-IP replacement works on: self IPs, routes and the config-sync IP,
 * as a store that answers delete and create requests.
 */
module SelfIpStore {
  import opened Prelude
  import opened Text

  datatype Key = Key(partition: string, name: string)

  /** An object of the device: its full path and its properties. */
  datatype Item<+T> = Item(key: Key, body: T)

  /** `other` stands for the properties the handler neither reads nor writes. */
  datatype SelfIpBody = SelfIpBody(
    vlan: string, address: string, trafficGroup: string, allowService: string,
    fwEnforcedPolicy: Option<string>, fwStagedPolicy: Option<string>, other: string)

  datatype RouteBody = RouteBody(gw: Option<string>, network: string, mtu: int, other: string)

  type SelfIp = Item<SelfIpBody>
  type Route = Item<RouteBody>

  datatype Store = Store(selfIps: seq<SelfIp>, routes: seq<Route>, syncIp: string)

  /**
   * The three comparisons of addresses the handler makes. Everything below holds for any choice of them;
   * `AddressRules` is the choice of the code, up to the library function `isInSubnet(address, cidr)`.
   */
  datatype Subnet = Subnet(
    addressIn: (string, string) -> bool,
    gatewayIn: (string, string) -> bool,
    isSyncIp: (string, string) -> bool)

  // ---------------------------------------------------------------- keys

  function KeysOf<T>(xs: seq<Item<T>>): set<Key>
  {
    if xs == [] then {} else {xs[0].key} + KeysOf(xs[1..])
  }

  lemma {:induction false} KeyIn<T>(xs: seq<Item<T>>, x: Item<T>)
    requires x in xs
    ensures x.key in KeysOf(xs)
  {
    if xs[0] != x {
      KeyIn(xs[1..], x);
    }
  }

  lemma {:induction false} KeyOwner<T>(xs: seq<Item<T>>, k: Key) returns (x: Item<T>)
    requires k in KeysOf(xs)
    ensures x in xs && x.key == k
  {
    if xs[0].key == k {
      x := xs[0];
    } else {
      x := KeyOwner(xs[1..], k);
    }
  }

  lemma {:induction false} NotAKey<T>(xs: seq<Item<T>>, k: Key)
    requires forall x <- xs :: x.key != k
    ensures k !in KeysOf(xs)
  {
    if xs != [] {
      NotAKey(xs[1..], k);
    }
  }

  lemma {:induction false} DisjointKeys<T>(a: seq<Item<T>>, b: seq<Item<T>>)
    requires forall x <- a, y <- b :: x.key != y.key
    ensures KeysOf(a) !! KeysOf(b)
  {
    if a != [] {
      NotAKey(b, a[0].key);
      DisjointKeys(a[1..], b);
    }
  }

  predicate UniqueKeys<T>(xs: seq<Item<T>>)
  {
    xs != [] ==> xs[0].key !in KeysOf(xs[1..]) && UniqueKeys(xs[1..])
  }

  predicate UniqueNames<T>(xs: seq<Item<T>>)
  {
    forall i, j | 0 <= i < j < |xs| :: xs[i].key.name != xs[j].key.name
  }

  function Without<T(!new)>(xs: seq<Item<T>>, ks: set<Key>): (r: seq<Item<T>>)
    ensures forall x :: x in r <==> x in xs && x.key !in ks
  {
    if xs == [] then []
    else if xs[0].key in ks then Without(xs[1..], ks)
    else [xs[0]] + Without(xs[1..], ks)
  }

  lemma {:induction false} WithoutKeys<T(!new)>(xs: seq<Item<T>>, ks: set<Key>)
    ensures KeysOf(Without(xs, ks)) == KeysOf(xs) - ks
    ensures UniqueKeys(xs) ==> UniqueKeys(Without(xs, ks))
  {
    if xs != [] {
      WithoutKeys(xs[1..], ks);
      var rest := Without(xs[1..], ks);
      assert ([xs[0]] + rest)[1..] == rest;
    }
  }

  lemma {:induction false} WithoutTwice<T(!new)>(xs: seq<Item<T>>, a: set<Key>, b: set<Key>)
    ensures Without(Without(xs, a), b) == Without(xs, a + b)
  {
    if xs != [] {
      WithoutTwice(xs[1..], a, b);
      var rest := Without(xs[1..], a);
      assert ([xs[0]] + rest)[1..] == rest;
    }
  }

  lemma {:induction false} WithoutNone<T(!new)>(xs: seq<Item<T>>)
    ensures Without(xs, {}) == xs
  {
    if xs != [] {
      WithoutNone(xs[1..]);
    }
  }

  // ---------------------------------------------------------------- requests

  datatype Request =
    | DeleteRoute(key: Key)
    | DeleteSelfIp(key: Key)
    | CreateSelfIp(selfIp: SelfIp)
    | CreateRoute(route: Route)
    | SetSyncIp(ip: string)

  /** What the device does: a delete needs the object (404), a create needs the name to be free (409). */
  function Step(store: Store, request: Request): Option<Store>
  {
    match request
    case DeleteRoute(k) =>
      if k in KeysOf(store.routes) then Some(store.(routes := Without(store.routes, {k}))) else None
    case DeleteSelfIp(k) =>
      if k in KeysOf(store.selfIps) then Some(store.(selfIps := Without(store.selfIps, {k}))) else None
    case CreateSelfIp(s) =>
      if s.key in KeysOf(store.selfIps) then None else Some(store.(selfIps := store.selfIps + [s]))
    case CreateRoute(r) =>
      if r.key in KeysOf(store.routes) then None else Some(store.(routes := store.routes + [r]))
    case SetSyncIp(ip) => Some(store.(syncIp := ip))
  }

  function Run(store: Store, requests: seq<Request>): Option<Store>
    decreases |requests|
  {
    if requests == [] then Some(store)
    else
      var next := Step(store, requests[0]);
      if next.None? then None else Run(next.value, requests[1..])
  }

  lemma {:induction false} RunConcat(store: Store, a: seq<Request>, b: seq<Request>)
    ensures Run(store, a + b) == if Run(store, a).None? then None else Run(Run(store, a).value, b)
    decreases |a|
  {
    if a == [] {
      assert a + b == b;
    } else {
      assert (a + b)[1..] == a[1..] + b;
      if Step(store, a[0]).Some? {
        RunConcat(Step(store, a[0]).value, a[1..], b);
      }
    }
  }

  function SelfIpDeletes(xs: seq<SelfIp>): seq<Request>
  {
    seq(|xs|, i requires 0 <= i < |xs| => DeleteSelfIp(xs[i].key))
  }

  function RouteDeletes(xs: seq<Route>): seq<Request>
  {
    seq(|xs|, i requires 0 <= i < |xs| => DeleteRoute(xs[i].key))
  }

  function SelfIpCreates(xs: seq<SelfIp>): seq<Request>
  {
    seq(|xs|, i requires 0 <= i < |xs| => CreateSelfIp(xs[i]))
  }

  function RouteCreates(xs: seq<Route>): seq<Request>
  {
    seq(|xs|, i requires 0 <= i < |xs| => CreateRoute(xs[i]))
  }

  lemma {:induction false} KeysConcat<T>(a: seq<Item<T>>, b: seq<Item<T>>)
    ensures KeysOf(a + b) == KeysOf(a) + KeysOf(b)
    ensures UniqueKeys(a + b) <==> UniqueKeys(a) && UniqueKeys(b) && KeysOf(a) !! KeysOf(b)
  {
    if a == [] {
      assert a + b == b;
    } else {
      assert (a + b)[1..] == a[1..] + b;
      KeysConcat(a[1..], b);
    }
  }

  /** Deleting a list of self IPs works exactly when they are distinct and present, and removes just them. */
  lemma {:induction false} DeleteSelfIps(store: Store, xs: seq<SelfIp>)
    ensures Run(store, SelfIpDeletes(xs)) ==
      if UniqueKeys(xs) && KeysOf(xs) <= KeysOf(store.selfIps)
      then Some(store.(selfIps := Without(store.selfIps, KeysOf(xs)))) else None
    decreases |xs|
  {
    var requests := SelfIpDeletes(xs);
    if xs == [] {
      WithoutNone(store.selfIps);
    } else {
      assert requests[1..] == SelfIpDeletes(xs[1..]);
      if xs[0].key in KeysOf(store.selfIps) {
        var next := Step(store, requests[0]).value;
        WithoutKeys(store.selfIps, {xs[0].key});
        DeleteSelfIps(next, xs[1..]);
        WithoutTwice(store.selfIps, {xs[0].key}, KeysOf(xs[1..]));
      }
    }
  }

  lemma {:induction false} DeleteRoutes(store: Store, xs: seq<Route>)
    requires UniqueKeys(xs) && KeysOf(xs) <= KeysOf(store.routes)
    ensures Run(store, RouteDeletes(xs)) == Some(store.(routes := Without(store.routes, KeysOf(xs))))
    decreases |xs|
  {
    var requests := RouteDeletes(xs);
    if xs == [] {
      WithoutNone(store.routes);
    } else {
      assert requests[1..] == RouteDeletes(xs[1..]);
      var next := Step(store, requests[0]).value;
      WithoutKeys(store.routes, {xs[0].key});
      DeleteRoutes(next, xs[1..]);
      WithoutTwice(store.routes, {xs[0].key}, KeysOf(xs[1..]));
    }
  }

  lemma {:induction false} CreateSelfIps(store: Store, xs: seq<SelfIp>)
    requires UniqueKeys(store.selfIps + xs)
    ensures Run(store, SelfIpCreates(xs)) == Some(store.(selfIps := store.selfIps + xs))
    decreases |xs|
  {
    var requests := SelfIpCreates(xs);
    if xs == [] {
      assert store.selfIps + xs == store.selfIps;
    } else {
      assert requests[1..] == SelfIpCreates(xs[1..]);
      KeysConcat(store.selfIps, xs);
      var next := Step(store, requests[0]).value;
      assert next.selfIps + xs[1..] == store.selfIps + xs;
      CreateSelfIps(next, xs[1..]);
    }
  }

  lemma {:induction false} CreateRoutes(store: Store, xs: seq<Route>)
    requires UniqueKeys(store.routes + xs)
    ensures Run(store, RouteCreates(xs)) == Some(store.(routes := store.routes + xs))
    decreases |xs|
  {
    var requests := RouteCreates(xs);
    if xs == [] {
      assert store.routes + xs == store.routes;
    } else {
      assert requests[1..] == RouteCreates(xs[1..]);
      KeysConcat(store.routes, xs);
      var next := Step(store, requests[0]).value;
      assert next.routes + xs[1..] == store.routes + xs;
      CreateRoutes(next, xs[1..]);
    }
  }

  // ---------------------------------------------------------------- addresses

  function StripCidr(address: string): string
  {
    Split(address, "/")[0]
  }

  /** `address.replace(/%\d+/, '')`. */
  function RemoveRouteDomain(address: string): string
  {
    if address == "" then ""
    else if address[0] == '%' && DigitPrefix(address[1..]) != "" then
      var digits := DigitPrefix(address[1..]);
      if 1 + |digits| <= |address| then address[1 + |digits|..] else ""
    else [address[0]] + RemoveRouteDomain(address[1..])
  }

  function StripExistingRouteDomainId(address: string): string
  {
    if '%' in address && address[0] != '%' then RemoveRouteDomain(address) else address
  }

  function AddDefaultRoute(ip: string): string
  {
    if '%' in ip then ip else ip + "%0"
  }

  /** How the code compares addresses. */
  function AddressRules(isInSubnet: (string, string) -> bool): Subnet
  {
    Subnet(
      (address, cidr) => isInSubnet(StripCidr(address), cidr),
      (gateway, cidr) => isInSubnet(StripExistingRouteDomainId(gateway), StripExistingRouteDomainId(cidr)),
      (syncIp, address) => AddDefaultRoute(StripCidr(address)) == AddDefaultRoute(syncIp))
  }

  predicate EndsWith(s: string, suffix: string)
  {
    |suffix| <= |s| && s[|s| - |suffix|..] == suffix
  }

  predicate IsLocal(s: SelfIp) { EndsWith(s.body.trafficGroup, "traffic-group-local-only") }

  /** The self IP's address lies in the subnet of `owner`. */
  predicate SharesSubnet(net: Subnet, s: SelfIp, owner: SelfIp)
  {
    net.addressIn(s.body.address, owner.body.address)
  }

  /** The route's gateway lies in the subnet of `owner`. */
  predicate GatewayInSubnet(net: Subnet, r: Route, owner: SelfIp)
  {
    r.body.gw.Some? && r.body.gw.value != "" && net.gatewayIn(r.body.gw.value, owner.body.address)
  }

  predicate IsSyncAddress(net: Subnet, syncIp: string, s: SelfIp)
  {
    syncIp != "none" && syncIp != "" && net.isSyncIp(syncIp, s.body.address)
  }

  // ---------------------------------------------------------------- what the comparisons mean

  lemma {:induction false} LeadingDigits(digits: string, rest: string)
    requires (forall c <- digits :: IsDigit(c)) && (rest == "" || !IsDigit(rest[0]))
    ensures DigitPrefix(digits + rest) == digits
  {
    if digits == "" {
      assert digits + rest == rest;
    } else {
      assert (digits + rest)[1..] == digits[1..] + rest;
      LeadingDigits(digits[1..], rest);
    }
  }

  /** The first route domain id is taken out, wherever it stands; an address without one stays as it is. */
  lemma {:induction false} RouteDomainRemoved(a: string, digits: string, rest: string)
    requires '%' !in a && digits != "" && (forall c <- digits :: IsDigit(c)) && (rest == "" || !IsDigit(rest[0]))
    ensures RemoveRouteDomain(a + ("%" + (digits + rest))) == a + rest
  {
    var s := a + ("%" + (digits + rest));
    if a == "" {
      assert s == "%" + (digits + rest) && s[1..] == digits + rest;
      LeadingDigits(digits, rest);
      assert s[1 + |digits|..] == rest && a + rest == rest;
    } else {
      assert s[1..] == a[1..] + ("%" + (digits + rest));
      RouteDomainRemoved(a[1..], digits, rest);
    }
  }

  /** A percent sign that no digit follows is no route domain id. */
  lemma {:induction false} NothingRemoved(a: string)
    requires forall i | 0 <= i < |a| && a[i] == '%' :: i + 1 == |a| || !IsDigit(a[i + 1])
    ensures RemoveRouteDomain(a) == a
  {
    if a != "" {
      forall i | 0 <= i < |a| - 1 ensures a[1..][i] == a[i + 1] {}
      NothingRemoved(a[1..]);
      assert a == [a[0]] + a[1..];
      if a[0] == '%' && |a| > 1 { assert !IsDigit(a[1..][0]); }
    }
  }

  lemma Stripped(a: string, digits: string, rest: string)
    requires '%' !in a && a != "" && digits != "" && (forall c <- digits :: IsDigit(c))
    requires rest == "" || !IsDigit(rest[0])
    ensures StripExistingRouteDomainId(a + "%" + digits + rest) == a + rest
    ensures StripExistingRouteDomainId(a) == a
  {
    var s := a + "%" + digits + rest;
    assert s == a + ("%" + (digits + rest)) && s[|a|] == '%' && s[0] == a[0];
    RouteDomainRemoved(a, digits, rest);
    hide RemoveRouteDomain;
  }

  lemma CidrStripped(ip: string, mask: string)
    requires '/' !in ip
    ensures StripCidr(ip + "/" + mask) == ip
  {
    SplitPrefix(ip, mask, "/");
  }

  /** An address is looked up without its mask, a gateway without its route domain in a subnet without one. */
  lemma SubnetRules(isInSubnet: (string, string) -> bool, a: string, mask: string, id: string, cidr: string)
    requires a != "" && '/' !in a && '%' !in a && id != "" && forall c <- id :: IsDigit(c)
    ensures AddressRules(isInSubnet).addressIn(a + "/" + mask, cidr) == isInSubnet(a, cidr)
    ensures '%' !in mask ==>
      AddressRules(isInSubnet).gatewayIn(a + "%" + id, a + "%" + id + "/" + mask) == isInSubnet(a, a + "/" + mask)
    ensures '%' !in mask ==> AddressRules(isInSubnet).gatewayIn(a, a + "/" + mask) == isInSubnet(a, a + "/" + mask)
  {
    CidrStripped(a, mask);
    Stripped(a, id, "");
    assert a + "%" + id + "" == a + "%" + id && a + "" == a;
    Stripped(a, id, "/" + mask);
    assert a + "%" + id + ("/" + mask) == a + "%" + id + "/" + mask && a + ("/" + mask) == a + "/" + mask;
    hide StripCidr, StripExistingRouteDomainId, RemoveRouteDomain;
    if '%' !in mask {
      NothingStripped(a + "/" + mask);
    }
  }

  lemma NothingStripped(a: string)
    requires '%' !in a
    ensures StripExistingRouteDomainId(a) == a
  {
  }

  /** The sync IP is the address without its mask; without a route domain id both are in route domain 0. */
  lemma SyncRules(isInSubnet: (string, string) -> bool, ip: string, mask: string, id: string)
    requires '/' !in ip && '%' !in ip && '/' !in id
    ensures AddressRules(isInSubnet).isSyncIp(ip, ip + "/" + mask)
    ensures AddressRules(isInSubnet).isSyncIp(ip + "%" + id, ip + "%" + id + "/" + mask)
    ensures AddressRules(isInSubnet).isSyncIp(ip, ip + "%" + id + "/" + mask) <==> id == "0"
    ensures AddressRules(isInSubnet).isSyncIp(ip + "%" + id, ip + "/" + mask) <==> id == "0"
  {
    CidrStripped(ip, mask);
    CidrStripped(ip + "%" + id, mask);
    hide StripCidr;
    assert (ip + "%" + id)[|ip|] == '%';
    assert ip + "%0" == ip + "%" + "0";
    if ip + "%" + id == ip + "%0" {
      assert id == (ip + "%" + id)[|ip| + 1..] == (ip + "%0")[|ip| + 1..] == "0";
    }
  }

  /** A route without a gateway blocks nothing, and there is no sync address while there is no sync IP. */
  lemma NothingToMatch(net: Subnet, r: Route, syncIp: string, s: SelfIp)
    ensures r.body.gw.None? || r.body.gw == Some("") ==> !GatewayInSubnet(net, r, s)
    ensures r.body.gw.Some? && r.body.gw.value != "" ==>
      (GatewayInSubnet(net, r, s) <==> net.gatewayIn(r.body.gw.value, s.body.address))
    ensures syncIp == "none" || syncIp == "" ==> !IsSyncAddress(net, syncIp, s)
    ensures syncIp != "none" && syncIp != "" ==>
      (IsSyncAddress(net, syncIp, s) <==> net.isSyncIp(syncIp, s.body.address))
  {
  }

  // ---------------------------------------------------------------- legality

  predicate NoGateway(net: Subnet, routes: seq<Route>, s: SelfIp)
  {
    forall r <- routes :: !GatewayInSubnet(net, r, s)
  }

  predicate NoFloating(net: Subnet, selfIps: seq<SelfIp>, s: SelfIp)
  {
    forall f <- selfIps :: IsLocal(f) || !SharesSubnet(net, f, s)
  }

  /** No route gateway lies in the subnet of `s` and it is not the config-sync IP. */
  predicate Unblocked(net: Subnet, store: Store, s: SelfIp)
  {
    NoGateway(net, store.routes, s) && !IsSyncAddress(net, store.syncIp, s)
  }

  /**
   * A self IP may go only when it is unblocked and, if it is local-only, no floating self IP lies in its subnet.
   */
  predicate Free(net: Subnet, store: Store, s: SelfIp)
  {
    Unblocked(net, store, s) && (IsLocal(s) ==> NoFloating(net, store.selfIps, s))
  }

  predicate Legal(net: Subnet, store: Store, request: Request)
  {
    request.DeleteSelfIp? ==> forall s <- store.selfIps | s.key == request.key :: Free(net, store, s)
  }

  /** Every request of the run is accepted and legal in the state it meets. */
  predicate LegalRun(net: Subnet, store: Store, requests: seq<Request>)
    decreases |requests|
  {
    requests != [] ==>
      && Step(store, requests[0]).Some?
      && Legal(net, store, requests[0])
      && LegalRun(net, Step(store, requests[0]).value, requests[1..])
  }

  lemma {:induction false} LegalConcat(net: Subnet, store: Store, a: seq<Request>, b: seq<Request>)
    requires Run(store, a).Some?
    ensures LegalRun(net, store, a + b) <==>
      LegalRun(net, store, a) && LegalRun(net, Run(store, a).value, b)
    decreases |a|
  {
    if a == [] {
      assert a + b == b;
    } else {
      assert (a + b)[1..] == a[1..] + b;
      LegalConcat(net, Step(store, a[0]).value, a[1..], b);
    }
  }

  /** Requests other than self-IP deletes are legal as soon as they are accepted. */
  lemma {:induction false} HarmlessRun(net: Subnet, store: Store, requests: seq<Request>)
    requires Run(store, requests).Some? && forall q <- requests :: !q.DeleteSelfIp?
    ensures LegalRun(net, store, requests)
    decreases |requests|
  {
    if requests != [] {
      assert requests[0] in requests;
      HarmlessRun(net, Step(store, requests[0]).value, requests[1..]);
    }
  }

  lemma FreeMonotone(net: Subnet, store: Store, ks: set<Key>, s: SelfIp)
    requires Free(net, store, s)
    ensures Free(net, store.(selfIps := Without(store.selfIps, ks)), s)
  {
  }

  /** Deleting self IPs that are all free is legal throughout. */
  lemma {:induction false} LegalDeletes(net: Subnet, store: Store, xs: seq<SelfIp>)
    requires UniqueKeys(xs) && KeysOf(xs) <= KeysOf(store.selfIps)
    requires forall s <- store.selfIps | s.key in KeysOf(xs) :: Free(net, store, s)
    ensures LegalRun(net, store, SelfIpDeletes(xs))
    decreases |xs|
  {
    if xs != [] {
      var requests := SelfIpDeletes(xs);
      assert requests[1..] == SelfIpDeletes(xs[1..]);
      var next := Step(store, requests[0]).value;
      WithoutKeys(store.selfIps, {xs[0].key});
      forall s <- next.selfIps | s.key in KeysOf(xs[1..]) ensures Free(net, next, s) {
        FreeMonotone(net, store, {xs[0].key}, s);
      }
      LegalDeletes(net, next, xs[1..]);
    }
  }

  /** A single blocked self IP makes the run illegal. */
  lemma {:induction false} IllegalDelete(net: Subnet, store: Store, xs: seq<SelfIp>, s: SelfIp)
    requires UniqueKeys(xs) && UniqueKeys(store.selfIps)
    requires s in xs && s in store.selfIps && !Unblocked(net, store, s)
    ensures !LegalRun(net, store, SelfIpDeletes(xs))
    decreases |xs|
  {
    var requests := SelfIpDeletes(xs);
    assert requests[1..] == SelfIpDeletes(xs[1..]);
    if xs[0].key != s.key && Step(store, requests[0]).Some? {
      assert s in xs[1..];
      WithoutKeys(store.selfIps, {xs[0].key});
      IllegalDelete(net, Step(store, requests[0]).value, xs[1..], s);
    }
  }
}
