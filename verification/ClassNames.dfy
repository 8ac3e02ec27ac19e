/** The names of the delete handler's classes, and the name of a list's namesake class. */
module ClassNames {
  import opened Prelude
  import Del = DeleteHandler
  import DeleteTheorems

  function NameOf(c: Del.Class): string
  {
    match c
    case DeviceGroup => "DeviceGroup"
    case DNS_Resolver => "DNS_Resolver"
    case Route => "Route"
    case SelfIp => "SelfIp"
    case FirewallPolicy => "FirewallPolicy"
    case FirewallAddressList => "FirewallAddressList"
    case FirewallPortList => "FirewallPortList"
    case NetAddressList => "NetAddressList"
    case NetPortList => "NetPortList"
    case VLAN => "VLAN"
    case Trunk => "Trunk"
    case RouteMap => "RouteMap"
    case RoutingPrefixList => "RoutingPrefixList"
    case RouteDomain => "RouteDomain"
    case RemoteAuthRole => "RemoteAuthRole"
    case ManagementRoute => "ManagementRoute"
    case Tunnel => "Tunnel"
    case RoutingAccessList => "RoutingAccessList"
    case RoutingAsPath => "RoutingAsPath"
    case GSLBMonitor => "GSLBMonitor"
    case SnmpTrapDestination => "SnmpTrapDestination"
    case SnmpCommunity => "SnmpCommunity"
    case SnmpUser => "SnmpUser"
    case GSLBProberPool => "GSLBProberPool"
    case GSLBServer => "GSLBServer"
    case GSLBDataCenter => "GSLBDataCenter"
  }

  const CLASSES: seq<Del.Class> := Del.DELETABLE_CLASSES + Del.GSLB_CLASSES

  /** The class of this name among the first `n`, if the delete handler knows it. */
  function Find(name: string, n: nat): Option<Del.Class>
    requires n <= |CLASSES|
  {
    if n == 0 then None
    else if NameOf(CLASSES[n - 1]) == name then Some(CLASSES[n - 1])
    else Find(name, n - 1)
  }

  function ClassOf(name: string): Option<Del.Class> { Find(name, |CLASSES|) }

  lemma {:induction false} FindName(name: string, n: nat)
    requires n <= |CLASSES| && Find(name, n).Some?
    ensures NameOf(Find(name, n).value) == name
  {
    hide NameOf;
    if NameOf(CLASSES[n - 1]) != name {
      FindName(name, n - 1);
    }
  }

  lemma ClassOfName(name: string)
    ensures ClassOf(name).Some? ==> NameOf(ClassOf(name).value) == name
  {
    hide NameOf;
    if ClassOf(name).Some? {
      FindName(name, |CLASSES|);
    }
  }

  // ---------------------------------------------------------------- address and port lists

  /** The class of the namesakes, for a class of address or port lists. */
  function NamesakeOf(c: string): Option<string>
  {
    if ClassOf(c).Some? && Del.Partner(ClassOf(c).value).Some? then Some(NameOf(Del.Partner(ClassOf(c).value).value))
    else None
  }

  lemma ListClass(c: Del.Class)
    requires Del.Partner(c).Some?
    ensures ClassOf(NameOf(c)) == Some(c) && NamesakeOf(NameOf(c)) == Some(NameOf(Del.Partner(c).value))
  {
    var turn := DeleteTheorems.Rank(c);
    assert CLASSES[turn - 1] == c;
    FindFound(c, turn, |CLASSES|);
    hide NameOf, ClassOf;
  }

  lemma {:induction false} FindFound(c: Del.Class, turn: nat, n: nat)
    requires Del.Partner(c).Some? && 0 < turn <= n <= |CLASSES| && CLASSES[turn - 1] == c
    ensures Find(NameOf(c), n) == Some(c)
  {
    OwnName(c, CLASSES[n - 1]);
    hide NameOf;
    if turn < n {
      FindFound(c, turn, n - 1);
    }
  }

  lemma OwnName(c: Del.Class, d: Del.Class)
    requires Del.Partner(c).Some?
    ensures NameOf(c) == NameOf(d) ==> c == d
  {
  }

  /** The classes of lists are the four, each the namesake of its namesake. */
  lemma NamesakeClass(c: string)
    requires NamesakeOf(c).Some?
    ensures var q := NamesakeOf(c).value;
      && NamesakeOf(q) == Some(c) && q != c && ClassOf(c).Some? && ClassOf(q).Some?
      && Del.Partner(ClassOf(c).value) == Some(ClassOf(q).value)
      && Del.Partner(ClassOf(q).value) == Some(ClassOf(c).value)
      && c == NameOf(ClassOf(c).value) && q == NameOf(ClassOf(q).value)
  {
    var p := ClassOf(c).value;
    ClassOfName(c);
    ListClass(p);
    OwnName(p, Del.Partner(p).value);
    hide NameOf, ClassOf;
    DeleteTheorems.PartnerTwice(p);
    ListClass(Del.Partner(p).value);
  }
}
