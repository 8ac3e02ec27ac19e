/**
 * deleteHandler.js: deleting objects class by class, on a device where an address or port list and its namesake in
 * the other module are one object.
 */
module DeleteHandler {
  import opened Prelude

  datatype Class =
    | DeviceGroup | DNS_Resolver | Route | SelfIp | FirewallPolicy | FirewallAddressList | FirewallPortList
    | NetAddressList | NetPortList | VLAN | Trunk | RouteMap | RoutingPrefixList | RouteDomain | RemoteAuthRole
    | ManagementRoute | Tunnel | RoutingAccessList | RoutingAsPath | GSLBMonitor | SnmpTrapDestination
    | SnmpCommunity | SnmpUser
    | GSLBProberPool | GSLBServer | GSLBDataCenter

  const DELETABLE_CLASSES: seq<Class> := [
    DeviceGroup, DNS_Resolver, Route, SelfIp, FirewallPolicy, FirewallAddressList, FirewallPortList,
    NetAddressList, NetPortList, VLAN, Trunk, RouteMap, RoutingPrefixList, RouteDomain, RemoteAuthRole,
    ManagementRoute, Tunnel, RoutingAccessList, RoutingAsPath, GSLBMonitor, SnmpTrapDestination,
    SnmpCommunity, SnmpUser]

  const GSLB_CLASSES: seq<Class> := [GSLBProberPool, GSLBServer, GSLBDataCenter]

  const READ_ONLY_DEVICE_GROUPS := ["device_trust_group", "gtm", "datasync-global-dg", "dos-global-dg"]
  const RETAINED_TUNNELS := ["http-tunnel", "socks-tunnel"]
  const RETAINED_RESOLVERS := ["f5-aws-dns"]
  const RETAINED_DOMAINS := ["0"]
  const RETAINED_MONITORS := ["http", "http_head_f5", "https", "https_head_f5", "gateway_icmp", "tcp", "udp"]

  /** Objects the device comes with, or that it refers to itself. */
  predicate Retained(c: Class, name: string)
  {
    match c
    case DeviceGroup => name in READ_ONLY_DEVICE_GROUPS
    case RouteDomain => name in RETAINED_DOMAINS
    case Tunnel => name in RETAINED_TUNNELS
    case DNS_Resolver => name in RETAINED_RESOLVERS
    case GSLBMonitor => name in RETAINED_MONITORS
    case _ => false
  }

  /** The class of a list's namesake. */
  function Partner(c: Class): Option<Class>
  {
    match c
    case FirewallAddressList => Some(NetAddressList)
    case NetAddressList => Some(FirewallAddressList)
    case FirewallPortList => Some(NetPortList)
    case NetPortList => Some(FirewallPortList)
    case _ => None
  }

  datatype Object = Object(cls: Class, name: string)

  /** One deletion sent to the device while class `during` was being processed. */
  datatype Command = Command(during: Class, target: Object)

  /** Names by class, in the order of the keys. */
  type Names = map<Class, seq<string>>

  /** `device`: what exists; `refused`: what the device declines to delete; `config`: state.currentConfig. */
  datatype World = World(device: set<Object>, refused: set<Object>, config: Names, trace: seq<Command>)

  function NamesOf(m: Names, c: Class): seq<string>
  {
    if c in m then m[c] else []
  }

  function Without(names: seq<string>, name: string): seq<string>
  {
    if names == [] then []
    else if names[0] == name then Without(names[1..], name)
    else [names[0]] + Without(names[1..], name)
  }

  /** What disappears with an object. */
  function Vanishing(device: set<Object>, target: Object): set<Object>
  {
    if target !in device then {}
    else if Partner(target.cls).Some? then {target, Object(Partner(target.cls).value, target.name)}
    else {target}
  }

  /** getDeletePromise: a missing object is ignored, any other failure rejects. */
  function Deleted(w: World, during: Class, target: Object): Option<World>
  {
    if target in w.refused then None
    else Some(w.(device := w.device - Vanishing(w.device, target), trace := w.trace + [Command(during, target)]))
  }

  // ---------------------------------------------------------------- one class

  /** One item of a class that is not deleted in a transaction; None when the handler throws or the device refuses. */
  function ItemDeleted(w: World, c: Class, name: string): Option<World>
  {
    if Partner(c).Some? then
      var other := Partner(c).value;
      if name in NamesOf(w.config, other) then
        Deleted(w.(config := w.config[other := Without(w.config[other], name)]), c, Object(other, name))
      else Deleted(w, c, Object(c, name))
    else if Retained(c, name) then Some(w)
    else if (c.Route? || c.Tunnel? || c.GSLBMonitor?) && name !in NamesOf(w.config, c) then None
    else Deleted(w, c, Object(c, name))
  }

  function ItemsDeleted(w: World, c: Class, names: seq<string>, n: nat): Option<World>
    requires n <= |names|
  {
    if n == 0 then Some(w)
    else
      var before := ItemsDeleted(w, c, names, n - 1);
      if before.None? then None else ItemDeleted(before.value, c, names[n - 1])
  }

  function Commands(during: Class, targets: seq<Object>): seq<Command>
  {
    seq(|targets|, i requires 0 <= i < |targets| => Command(during, targets[i]))
  }

  /** All or nothing. */
  function Transaction(w: World, during: Class, targets: seq<Object>): Option<World>
  {
    if targets == [] then Some(w)
    else if exists o <- targets :: o !in w.device || o in w.refused then None
    else Some(w.(device := w.device - (set o | o in targets), trace := w.trace + Commands(during, targets)))
  }

  function DomainsToDelete(names: seq<string>): seq<Object>
  {
    if names == [] then []
    else
      var rest := DomainsToDelete(names[..|names| - 1]);
      var name := names[|names| - 1];
      if Retained(RouteDomain, name) then rest else rest + [Object(RouteDomain, name)]
  }

  /** An empty class stands for all current objects of the class. */
  function Wanted(request: Names, config: Names, c: Class): seq<string>
  {
    if c !in request then [] else if request[c] == [] then NamesOf(config, c) else request[c]
  }

  function ClassDeleted(request: Names, w: World, c: Class): Option<World>
  {
    if c !in request then Some(w)
    else if request[c] == [] && c !in w.config then None
    else
      var names := Wanted(request, w.config, c);
      if c.RouteDomain? then Transaction(w, c, DomainsToDelete(names)) else ItemsDeleted(w, c, names, |names|)
  }

  function ClassesDeleted(request: Names, w: World, n: nat): Option<World>
    requires n <= |DELETABLE_CLASSES|
  {
    if n == 0 then Some(w)
    else
      var before := ClassesDeleted(request, w, n - 1);
      if before.None? then None else ClassDeleted(request, before.value, DELETABLE_CLASSES[n - 1])
  }

  /** The GSLB items that may refer to one another go first, together - those that are named. */
  function GslbTargets(request: Names, n: nat): seq<Object>
    requires n <= |GSLB_CLASSES|
  {
    if n == 0 then []
    else
      var c := GSLB_CLASSES[n - 1];
      var names := NamesOf(request, c);
      GslbTargets(request, n - 1) + seq(|names|, i requires 0 <= i < |names| => Object(c, names[i]))
  }

  function Processed(request: Names, w: World): Option<World>
  {
    var first := Transaction(w, GSLBServer, GslbTargets(request, |GSLB_CLASSES|));
    if first.None? then None else ClassesDeleted(request, first.value, |DELETABLE_CLASSES|)
  }

  // ---------------------------------------------------------------- the handler

  class DeleteHandler {
    const declaration: Names
    var world: World

    constructor (request: Names, w: World)
      ensures declaration == request && world == w
    {
      declaration, world := request, w;
    }

    /** False when a deletion fails; then nothing is promised about the rest of the class. */
    method DeleteClass(c: Class) returns (ok: bool)
      modifies this`world
      ensures ok == ClassDeleted(declaration, old(world), c).Some?
      ensures ok ==> world == ClassDeleted(declaration, old(world), c).value
    {
      if c !in declaration { return true; }
      var itemNames := declaration[c];
      if itemNames == [] {
        if c !in world.config { return false; }
        itemNames := world.config[c];
      }
      ghost var before := world;
      if c.RouteDomain? {
        var transactionCommands: seq<Object> := [];
        for i := 0 to |itemNames|
          invariant world == before
          invariant transactionCommands == DomainsToDelete(itemNames[..i])
        {
          assert itemNames[..i + 1][..i] == itemNames[..i];
          if !Retained(RouteDomain, itemNames[i]) {
            transactionCommands := transactionCommands + [Object(RouteDomain, itemNames[i])];
          }
        }
        assert itemNames[..|itemNames|] == itemNames;
        var done := Transaction(world, c, transactionCommands);
        if done.None? { return false; }
        world := done.value;
        return true;
      }
      ok := true;
      for i := 0 to |itemNames|
        invariant ok == ItemsDeleted(before, c, itemNames, i).Some?
        invariant ok ==> Some(world) == ItemsDeleted(before, c, itemNames, i)
      {
        if ok {
          var next := ItemDeleted(world, c, itemNames[i]);
          ok := next.Some?;
          if ok { world := next.value; }
        }
      }
    }

    method Process() returns (ok: bool)
      modifies this`world
      ensures ok == Processed(declaration, old(world)).Some?
      ensures ok ==> Some(world) == Processed(declaration, old(world))
    {
      hide Transaction, GslbTargets, ClassDeleted;
      var first := Transaction(world, GSLBServer, GslbTargets(declaration, |GSLB_CLASSES|));
      if first.None? { return false; }
      world := first.value;
      ok := true;
      for i := 0 to |DELETABLE_CLASSES|
        invariant ok == ClassesDeleted(declaration, first.value, i).Some?
        invariant ok ==> Some(world) == ClassesDeleted(declaration, first.value, i)
      {
        if ok {
          ok := DeleteClass(DELETABLE_CLASSES[i]);
        }
      }
    }
  }
}
