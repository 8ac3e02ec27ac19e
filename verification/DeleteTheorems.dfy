/**
 * Ordered, complete and restrained deletion: the trace follows the order of the classes, everything asked for is gone
 * although the current configuration is edited on the way, and nothing else is - in particular nothing retained.
 */
module DeleteTheorems {
  import opened Prelude
  import opened DeleteHandler

  // ---------------------------------------------------------------- one step, whatever the class

  /** Objects that may be deleted on behalf of name `n` of class `c`. */
  predicate Concerns(o: Object, c: Class, n: string)
  {
    o.name == n && (o.cls == c || Partner(o.cls) == Some(c))
  }

  /** Nothing is created, and what is sent is on behalf of the names, and not retained. */
  ghost predicate Shrinks(w: World, after: World, c: Class, names: seq<string>)
  {
    && after.device <= w.device && after.refused == w.refused
    && (forall o | o in w.device && o !in after.device :: exists n <- names :: Concerns(o, c, n))
    && (forall o | o in w.device && o !in after.device :: !Retained(o.cls, o.name))
    && w.trace <= after.trace
    && (forall i | |w.trace| <= i < |after.trace| :: after.trace[i].during == c)
    && (forall i | |w.trace| <= i < |after.trace| :: !Retained(after.trace[i].target.cls, after.trace[i].target.name))
  }

  lemma PartnerTwice(c: Class)
    ensures Partner(c).Some? ==> Partner(Partner(c).value) == Some(c)
    ensures forall n :: Partner(c).Some? ==> !Retained(c, n)
  {
  }

  lemma DeletedShrinks(w: World, c: Class, target: Object)
    requires Deleted(w, c, target).Some? && Concerns(target, c, target.name) && !Retained(target.cls, target.name)
    ensures Shrinks(w, Deleted(w, c, target).value, c, [target.name])
    ensures target !in Deleted(w, c, target).value.device
    ensures target in w.device && Partner(target.cls).Some? ==>
      Object(Partner(target.cls).value, target.name) !in Deleted(w, c, target).value.device
  {
    hide Retained;
    PartnerTwice(target.cls);
    var after := Deleted(w, c, target).value;
    forall o | o in w.device && o !in after.device
      ensures exists n <- [target.name] :: Concerns(o, c, n)
      ensures !Retained(o.cls, o.name)
    {
      PartnerTwice(o.cls);
      assert target.name in [target.name];
      assert Concerns(o, c, target.name);
    }
  }

  // ---------------------------------------------------------------- the current configuration while it is edited

  /** A list in the current configuration is on the device, or else its namesake is not either. */
  ghost predicate Consistent(w: World)
  {
    forall p, n | Partner(p).Some? && n in NamesOf(w.config, p) ::
      Object(p, n) in w.device || Object(Partner(p).value, n) !in w.device
  }

  /** What has left the current configuration has left the device; other classes keep their entries. */
  ghost predicate Tracks(w: World, after: World)
  {
    && (forall p, n | n in NamesOf(w.config, p) :: n in NamesOf(after.config, p) || Object(p, n) !in after.device)
    && (forall p, n | n in NamesOf(after.config, p) :: n in NamesOf(w.config, p))
    && after.config.Keys == w.config.Keys
    && (forall p | Partner(p).None? :: NamesOf(after.config, p) == NamesOf(w.config, p))
  }

  lemma {:induction false} WithoutMember(names: seq<string>, name: string, x: string)
    ensures x in Without(names, name) <==> x in names && x != name
    decreases |names|
  {
    if names != [] { WithoutMember(names[1..], name, x); }
  }

  lemma TracksTrans(a: World, b: World, c: World)
    requires Tracks(a, b) && Tracks(b, c) && c.device <= b.device
    ensures Tracks(a, c)
  {
  }

  lemma ShrinksTrans(a: World, b: World, c: World, cls: Class, first: seq<string>, second: seq<string>)
    requires Shrinks(a, b, cls, first) && Shrinks(b, c, cls, second)
    ensures Shrinks(a, c, cls, first + second)
  {
    hide Retained, Concerns;
    forall o | o in a.device && o !in c.device ensures exists n <- first + second :: Concerns(o, cls, n) {
      if o in b.device {
        var n :| n in second && Concerns(o, cls, n);
        assert n in first + second;
      } else {
        var n :| n in first && Concerns(o, cls, n);
        assert n in first + second;
      }
    }
    forall i | |a.trace| <= i < |c.trace|
      ensures c.trace[i].during == cls && !Retained(c.trace[i].target.cls, c.trace[i].target.name)
    {
      if i < |b.trace| { assert c.trace[i] == b.trace[i]; }
    }
  }

  /** An item that is processed and not retained is gone, and the bookkeeping stays right. */
  lemma ItemGone(w: World, c: Class, name: string)
    requires Consistent(w) && ItemDeleted(w, c, name).Some?
    ensures var after := ItemDeleted(w, c, name).value;
      && Shrinks(w, after, c, [name]) && Tracks(w, after) && Consistent(after)
      && (!Retained(c, name) ==> Object(c, name) !in after.device)
  {
    hide Retained;
    if Partner(c).Some? {
      ListGone(w, c, name);
    } else if !Retained(c, name) {
      DeletedShrinks(w, c, Object(c, name));
      var after := ItemDeleted(w, c, name).value;
      forall p, n | Partner(p).Some? && n in NamesOf(after.config, p)
        ensures Object(p, n) in after.device || Object(Partner(p).value, n) !in after.device
      {
        PartnerTwice(p);
        assert p != c && Partner(p).value != c;
      }
    }
  }

  lemma ListGone(w: World, c: Class, name: string)
    requires Consistent(w) && ItemDeleted(w, c, name).Some? && Partner(c).Some?
    ensures var after := ItemDeleted(w, c, name).value;
      && Shrinks(w, after, c, [name]) && Tracks(w, after) && Consistent(after)
      && Object(c, name) !in after.device
  {
    hide Retained;
    var other := Partner(c).value;
    PartnerTwice(c);
    PartnerTwice(other);
    var after := ItemDeleted(w, c, name).value;
    var shared := name in NamesOf(w.config, other);
    var target := if shared then Object(other, name) else Object(c, name);
    var edited := if shared then w.(config := w.config[other := Without(w.config[other], name)]) else w;
    assert Deleted(edited, c, target) == Some(after);
    DeletedShrinks(edited, c, target);
    forall p, n ensures n in NamesOf(after.config, p)
      <==> n in NamesOf(w.config, p) && !(shared && p == other && n == name)
    {
      if shared && p == other { WithoutMember(w.config[other], name, n); }
    }
    if shared {
      assert Object(other, name) in w.device || Object(c, name) !in w.device;
    }
    forall p, n | Partner(p).Some? && n in NamesOf(after.config, p)
      ensures Object(p, n) in after.device || Object(Partner(p).value, n) !in after.device
    {
      PartnerTwice(p);
      assert Object(p, n) in w.device || Object(Partner(p).value, n) !in w.device;
    }
  }

  lemma {:induction false} ItemsGone(w: World, c: Class, names: seq<string>, n: nat)
    requires n <= |names| && Consistent(w) && ItemsDeleted(w, c, names, n).Some?
    ensures var after := ItemsDeleted(w, c, names, n).value;
      && Shrinks(w, after, c, names[..n]) && Tracks(w, after) && Consistent(after)
      && forall i | 0 <= i < n && !Retained(c, names[i]) :: Object(c, names[i]) !in after.device
  {
    hide Retained, Concerns, ItemDeleted;
    if n > 0 {
      ItemsGone(w, c, names, n - 1);
      var before := ItemsDeleted(w, c, names, n - 1).value;
      var after := ItemsDeleted(w, c, names, n).value;
      ItemGone(before, c, names[n - 1]);
      ShrinksTrans(w, before, after, c, names[..n - 1], [names[n - 1]]);
      assert names[..n - 1] + [names[n - 1]] == names[..n];
      TracksTrans(w, before, after);
    }
  }

  // ---------------------------------------------------------------- transactions

  lemma {:induction false} DomainsMember(names: seq<string>, o: Object)
    ensures o in DomainsToDelete(names) <==> o.cls == RouteDomain && o.name in names && !Retained(RouteDomain, o.name)
  {
    hide Retained;
    if names != [] {
      var n := |names| - 1;
      DomainsMember(names[..n], o);
      assert names == names[..n] + [names[n]];
    }
  }

  lemma DomainsGone(w: World, names: seq<string>)
    requires Consistent(w) && Transaction(w, RouteDomain, DomainsToDelete(names)).Some?
    ensures var after := Transaction(w, RouteDomain, DomainsToDelete(names)).value;
      && Shrinks(w, after, RouteDomain, names) && Tracks(w, after) && Consistent(after)
      && forall n <- names | !Retained(RouteDomain, n) :: Object(RouteDomain, n) !in after.device
  {
    hide Retained;
    var targets := DomainsToDelete(names);
    var after := Transaction(w, RouteDomain, targets).value;
    forall o { DomainsMember(names, o); }
    forall o | o in w.device && o !in after.device
      ensures exists n <- names :: Concerns(o, RouteDomain, n)
      ensures !Retained(o.cls, o.name)
    {
      assert o in targets;
      assert Concerns(o, RouteDomain, o.name);
    }
    forall i | |w.trace| <= i < |after.trace|
      ensures after.trace[i].during == RouteDomain && !Retained(after.trace[i].target.cls, after.trace[i].target.name)
    {
      assert after.trace[i].target == targets[i - |w.trace|];
      assert targets[i - |w.trace|] in targets;
    }
    forall n <- names | !Retained(RouteDomain, n) ensures Object(RouteDomain, n) !in after.device {
      assert Object(RouteDomain, n) in targets;
    }
  }

  // ---------------------------------------------------------------- one class

  lemma ClassGone(request: Names, w: World, c: Class)
    requires Consistent(w) && ClassDeleted(request, w, c).Some?
    ensures var after := ClassDeleted(request, w, c).value;
      && Shrinks(w, after, c, Wanted(request, w.config, c)) && Tracks(w, after) && Consistent(after)
      && forall n <- Wanted(request, w.config, c) | !Retained(c, n) :: Object(c, n) !in after.device
  {
    hide Retained, Concerns, Transaction, DomainsToDelete, ItemDeleted;
    var names := Wanted(request, w.config, c);
    if c in request {
      if c.RouteDomain? {
        DomainsGone(w, names);
      } else {
        ItemsGone(w, c, names, |names|);
        assert names[..|names|] == names;
      }
    }
  }

  // ---------------------------------------------------------------- all classes

  /** The position of a class in the order of deletion; the GSLB transaction comes first. */
  function Rank(c: Class): nat
  {
    match c
    case GSLBProberPool => 0 case GSLBServer => 0 case GSLBDataCenter => 0
    case DeviceGroup => 1 case DNS_Resolver => 2 case Route => 3 case SelfIp => 4 case FirewallPolicy => 5
    case FirewallAddressList => 6 case FirewallPortList => 7 case NetAddressList => 8 case NetPortList => 9
    case VLAN => 10 case Trunk => 11 case RouteMap => 12 case RoutingPrefixList => 13 case RouteDomain => 14
    case RemoteAuthRole => 15 case ManagementRoute => 16 case Tunnel => 17 case RoutingAccessList => 18
    case RoutingAsPath => 19 case GSLBMonitor => 20 case SnmpTrapDestination => 21 case SnmpCommunity => 22
    case SnmpUser => 23
  }

  lemma RankOf(i: nat)
    requires i < |DELETABLE_CLASSES|
    ensures Rank(DELETABLE_CLASSES[i]) == i + 1
  {
  }

  lemma Deletable(c: Class)
    requires c !in GSLB_CLASSES
    ensures Rank(c) > 0 && DELETABLE_CLASSES[Rank(c) - 1] == c
  {
  }

  /** The commands go through the classes in order, none of them beyond rank `n`. */
  ghost predicate InOrder(trace: seq<Command>, n: nat)
  {
    && (forall i | 0 <= i < |trace| :: Rank(trace[i].during) <= n)
    && (forall i, j | 0 <= i < j < |trace| :: Rank(trace[i].during) <= Rank(trace[j].during))
  }

  predicate Spared(trace: seq<Command>)
  {
    forall i | 0 <= i < |trace| :: !Retained(trace[i].target.cls, trace[i].target.name)
  }

  /** Somebody asked for this object, or for its namesake. */
  ghost predicate Asked(request: Names, config: Names, o: Object)
  {
    exists c: Class, n :: n in Wanted(request, config, c) && Concerns(o, c, n)
  }

  /** Everything that is promised after the first `n` classes. */
  ghost predicate Promised(request: Names, w: World, n: nat, after: World)
    requires n <= |DELETABLE_CLASSES|
  {
    && Consistent(after) && Tracks(w, after) && after.device <= w.device
    && (forall i, x | 0 <= i < n && x in Wanted(request, w.config, DELETABLE_CLASSES[i])
          && !Retained(DELETABLE_CLASSES[i], x) :: Object(DELETABLE_CLASSES[i], x) !in after.device)
    && (forall o | o in w.device && o !in after.device :: !Retained(o.cls, o.name) && Asked(request, w.config, o))
    && InOrder(after.trace, n) && Spared(after.trace)
  }

  /** What is wanted after some of the configuration has been edited away was wanted before, or is gone. */
  lemma WantedTracks(request: Names, w: World, before: World, c: Class, x: string)
    requires Tracks(w, before)
    ensures x in Wanted(request, before.config, c) ==> x in Wanted(request, w.config, c)
    ensures x in Wanted(request, w.config, c) ==>
      x in Wanted(request, before.config, c) || Object(c, x) !in before.device
  {
  }

  lemma TraceStep(before: World, after: World, c: Class, n: nat, names: seq<string>)
    requires InOrder(before.trace, n) && Spared(before.trace) && Rank(c) == n + 1 && Shrinks(before, after, c, names)
    ensures InOrder(after.trace, n + 1) && Spared(after.trace)
  {
    hide Retained, Concerns;
    forall i | 0 <= i < |before.trace| ensures after.trace[i] == before.trace[i] {}
  }

  lemma ClassStep(request: Names, w: World, n: nat, before: World)
    requires n < |DELETABLE_CLASSES| && Promised(request, w, n, before)
    requires ClassDeleted(request, before, DELETABLE_CLASSES[n]).Some?
    ensures Promised(request, w, n + 1, ClassDeleted(request, before, DELETABLE_CLASSES[n]).value)
  {
    hide Retained, Concerns, Consistent, ClassDeleted, InOrder, Spared, Wanted;
    var c := DELETABLE_CLASSES[n];
    var after := ClassDeleted(request, before, c).value;
    ClassGone(request, before, c);
    RankOf(n);
    TraceStep(before, after, c, n, Wanted(request, before.config, c));
    TracksTrans(w, before, after);
    forall i, x | 0 <= i < n + 1 && x in Wanted(request, w.config, DELETABLE_CLASSES[i])
      && !Retained(DELETABLE_CLASSES[i], x) ensures Object(DELETABLE_CLASSES[i], x) !in after.device
    {
      WantedTracks(request, w, before, c, x);
    }
    forall o | o in w.device && o !in after.device ensures !Retained(o.cls, o.name) && Asked(request, w.config, o) {
      if o in before.device {
        var x :| x in Wanted(request, before.config, c) && Concerns(o, c, x);
        WantedTracks(request, w, before, c, x);
      }
    }
  }

  lemma {:induction false} ClassesPromise(request: Names, w: World, first: World, n: nat)
    requires n <= |DELETABLE_CLASSES| && Promised(request, w, 0, first) && ClassesDeleted(request, first, n).Some?
    ensures Promised(request, w, n, ClassesDeleted(request, first, n).value)
  {
    hide Promised, ClassDeleted;
    if n > 0 {
      ClassesPromise(request, w, first, n - 1);
      ClassStep(request, w, n - 1, ClassesDeleted(request, first, n - 1).value);
    }
  }

  // ---------------------------------------------------------------- the GSLB transaction

  lemma {:induction false} GslbMember(request: Names, n: nat, o: Object)
    requires n <= |GSLB_CLASSES|
    ensures o in GslbTargets(request, n) <==> o.cls in GSLB_CLASSES[..n] && o.name in NamesOf(request, o.cls)
  {
    if n > 0 {
      GslbMember(request, n - 1, o);
      var c := GSLB_CLASSES[n - 1];
      var names := NamesOf(request, c);
      var more := seq(|names|, i requires 0 <= i < |names| => Object(c, names[i]));
      assert GslbTargets(request, n) == GslbTargets(request, n - 1) + more;
      if o.cls == c && o.name in names {
        var i :| 0 <= i < |names| && names[i] == o.name;
        assert more[i] == o;
      }
      assert GSLB_CLASSES[..n] == GSLB_CLASSES[..n - 1] + [c];
    }
  }

  /** What the transaction takes away is named in the request. */
  lemma GslbVanishes(request: Names, w: World, o: Object)
    requires Transaction(w, GSLBServer, GslbTargets(request, |GSLB_CLASSES|)).Some?
    ensures var first := Transaction(w, GSLBServer, GslbTargets(request, |GSLB_CLASSES|)).value;
      && first.device <= w.device && first.config == w.config
      && (o in w.device && o !in first.device ==> o.cls in GSLB_CLASSES && o.name in NamesOf(request, o.cls))
      && (o in w.device && o.cls in GSLB_CLASSES && o.name in NamesOf(request, o.cls) ==> o !in first.device)
  {
    GslbMember(request, |GSLB_CLASSES|, o);
    assert GSLB_CLASSES[..|GSLB_CLASSES|] == GSLB_CLASSES;
  }

  lemma GslbTrace(request: Names, w: World)
    requires w.trace == [] && Transaction(w, GSLBServer, GslbTargets(request, |GSLB_CLASSES|)).Some?
    ensures var first := Transaction(w, GSLBServer, GslbTargets(request, |GSLB_CLASSES|)).value;
      InOrder(first.trace, 0) && Spared(first.trace)
  {
    hide Retained;
    var targets := GslbTargets(request, |GSLB_CLASSES|);
    var first := Transaction(w, GSLBServer, targets).value;
    assert GSLB_CLASSES[..|GSLB_CLASSES|] == GSLB_CLASSES;
    forall i | 0 <= i < |first.trace|
      ensures first.trace[i].during == GSLBServer
      ensures !Retained(first.trace[i].target.cls, first.trace[i].target.name)
    {
      assert first.trace[i] == Commands(GSLBServer, targets)[i];
      GslbMember(request, |GSLB_CLASSES|, targets[i]);
      NeverRetained(targets[i]);
    }
  }

  lemma GslbStep(request: Names, w: World)
    requires Consistent(w) && w.trace == []
    requires Transaction(w, GSLBServer, GslbTargets(request, |GSLB_CLASSES|)).Some?
    ensures Promised(request, w, 0, Transaction(w, GSLBServer, GslbTargets(request, |GSLB_CLASSES|)).value)
  {
    hide Retained, Transaction, GslbTargets, InOrder, Spared;
    var first := Transaction(w, GSLBServer, GslbTargets(request, |GSLB_CLASSES|)).value;
    GslbTrace(request, w);
    GslbVanishes(request, w, Object(GSLBServer, ""));
    forall o | o in w.device && o !in first.device ensures !Retained(o.cls, o.name) && Asked(request, w.config, o) {
      GslbVanishes(request, w, o);
      NeverRetained(o);
      assert o.name in Wanted(request, w.config, o.cls) && Concerns(o, o.cls, o.name);
    }
    forall p, n | Partner(p).Some? && n in NamesOf(first.config, p)
      ensures Object(p, n) in first.device || Object(Partner(p).value, n) !in first.device
    {
      GslbVanishes(request, w, Object(p, n));
      assert Object(p, n) in w.device || Object(Partner(p).value, n) !in w.device;
    }
  }

  lemma NeverRetained(o: Object)
    requires o.cls in GSLB_CLASSES
    ensures !Retained(o.cls, o.name)
  {
  }

  lemma ProcessPromise(request: Names, w: World)
    requires Consistent(w) && w.trace == [] && Processed(request, w).Some?
    ensures Promised(request, w, |DELETABLE_CLASSES|, Processed(request, w).value)
  {
    hide Promised, Transaction, GslbTargets, ClassesDeleted;
    GslbStep(request, w);
    var first := Transaction(w, GSLBServer, GslbTargets(request, |GSLB_CLASSES|)).value;
    ClassesPromise(request, w, first, |DELETABLE_CLASSES|);
  }

  // ---------------------------------------------------------------- what the device needs

  /** The objects that are never deleted, one by one. */
  const DEVICE_OBJECTS: set<Object> := {
    Object(DeviceGroup, "device_trust_group"), Object(DeviceGroup, "gtm"),
    Object(DeviceGroup, "datasync-global-dg"), Object(DeviceGroup, "dos-global-dg"),
    Object(RouteDomain, "0"),
    Object(Tunnel, "http-tunnel"), Object(Tunnel, "socks-tunnel"),
    Object(DNS_Resolver, "f5-aws-dns"),
    Object(GSLBMonitor, "http"), Object(GSLBMonitor, "http_head_f5"), Object(GSLBMonitor, "https"),
    Object(GSLBMonitor, "https_head_f5"), Object(GSLBMonitor, "gateway_icmp"), Object(GSLBMonitor, "tcp"),
    Object(GSLBMonitor, "udp")}

  lemma RetainedIff(c: Class, name: string)
    ensures Retained(c, name) <==> Object(c, name) in DEVICE_OBJECTS
  {
  }

  /** What the device needs is still there and has not even been sent for deletion, whatever was asked for. */
  lemma DeviceObjectsStay(request: Names, w: World, o: Object)
    requires Consistent(w) && w.trace == [] && Processed(request, w).Some? && o in DEVICE_OBJECTS
    ensures var after := Processed(request, w).value;
      && (o in after.device <==> o in w.device)
      && forall i | 0 <= i < |after.trace| :: after.trace[i].target != o
  {
    hide DEVICE_OBJECTS, Retained, Processed, Consistent;
    Restrained(request, w);
  }

  /** Every other object that is asked for, by name or as one of its class, is gone. */
  lemma OthersGo(request: Names, w: World, o: Object)
    requires Consistent(w) && w.trace == [] && Processed(request, w).Some? && o !in DEVICE_OBJECTS
    requires o.cls !in GSLB_CLASSES && o.cls in request
    requires if request[o.cls] == [] then o.name in NamesOf(w.config, o.cls) else o.name in request[o.cls]
    ensures o !in Processed(request, w).value.device
  {
    hide DEVICE_OBJECTS, Retained, Processed, Consistent;
    Complete(request, w, o.cls, o.name);
  }

  // ---------------------------------------------------------------- main results

  /** Everything asked for is gone: the named objects, or all current ones when the class is empty. */
  lemma Complete(request: Names, w: World, c: Class, name: string)
    requires Consistent(w) && w.trace == [] && Processed(request, w).Some? && c !in GSLB_CLASSES
    requires name in Wanted(request, w.config, c) && Object(c, name) !in DEVICE_OBJECTS
    ensures Object(c, name) !in Processed(request, w).value.device
  {
    hide DEVICE_OBJECTS, Retained, Processed;
    RetainedIff(c, name);
    ProcessPromise(request, w);
    Deletable(c);
  }

  /** Deletions are sent class by class in the order of DELETABLE_CLASSES, after the GSLB transaction. */
  lemma DeletesInOrder(request: Names, w: World)
    requires Consistent(w) && w.trace == [] && Processed(request, w).Some?
    ensures var trace := Processed(request, w).value.trace;
      forall i, j | 0 <= i < j < |trace| :: Rank(trace[i].during) <= Rank(trace[j].during)
  {
    hide Processed;
    ProcessPromise(request, w);
  }

  /**
   * Nothing retained is deleted or even sent for deletion, and nothing goes that was not asked for, as itself or as
   * the namesake of a list.
   */
  lemma Restrained(request: Names, w: World)
    requires Consistent(w) && w.trace == [] && Processed(request, w).Some?
    ensures var after := Processed(request, w).value;
      && (forall i | 0 <= i < |after.trace| :: after.trace[i].target !in DEVICE_OBJECTS)
      && (forall o | o in w.device && o !in after.device :: o !in DEVICE_OBJECTS && Asked(request, w.config, o))
      && after.device <= w.device
  {
    hide DEVICE_OBJECTS, Processed, Retained;
    ProcessPromise(request, w);
    forall o: Object ensures Retained(o.cls, o.name) <==> o in DEVICE_OBJECTS { RetainedIff(o.cls, o.name); }
  }

  /**
   * A GSLB server, data center or prober pool goes exactly when it is named: an empty class does not stand for all
   * of them here, so a class that vanished from the declaration as a whole stays on the device.
   */
  lemma GslbOnlyByName(request: Names, w: World, o: Object)
    requires Consistent(w) && w.trace == [] && Processed(request, w).Some?
    requires o.cls in GSLB_CLASSES && o in w.device
    ensures o !in Processed(request, w).value.device <==> o.name in NamesOf(request, o.cls)
  {
    hide DEVICE_OBJECTS, Retained, ClassDeleted;
    GslbStep(request, w);
    var first := Transaction(w, GSLBServer, GslbTargets(request, |GSLB_CLASSES|)).value;
    GslbVanishes(request, w, o);
    GslbUntouched(request, first, |DELETABLE_CLASSES|, o);
  }

  lemma {:induction false} GslbUntouched(request: Names, w: World, n: nat, o: Object)
    requires n <= |DELETABLE_CLASSES| && Consistent(w) && ClassesDeleted(request, w, n).Some? && o.cls in GSLB_CLASSES
    ensures Consistent(ClassesDeleted(request, w, n).value)
    ensures o in ClassesDeleted(request, w, n).value.device <==> o in w.device
  {
    hide DEVICE_OBJECTS, Retained, ClassDeleted, Consistent, Concerns, Tracks, Wanted, Rank;
    if n > 0 {
      GslbUntouched(request, w, n - 1, o);
      var before := ClassesDeleted(request, w, n - 1).value;
      var c := DELETABLE_CLASSES[n - 1];
      ClassGone(request, before, c);
      RankOf(n - 1);
      forall x: string ensures !Concerns(o, c, x) { GslbUnconcerned(o, c, x); }
    }
  }

  lemma GslbUnconcerned(o: Object, c: Class, n: string)
    requires o.cls in GSLB_CLASSES && Rank(c) > 0
    ensures !Concerns(o, c, n)
  {
  }

  // ---------------------------------------------------------------- when the handler gets through

  /** What the handler looks up or deletes in a transaction is there. */
  predicate ClassReady(request: Names, w: World, c: Class)
  {
    c in request ==>
      && (request[c] == [] ==> c in w.config)
      && (c.RouteDomain? ==>
            forall n <- Wanted(request, w.config, c) :: Object(c, n) in DEVICE_OBJECTS || Object(c, n) in w.device)
      && (c.Route? || c.Tunnel? || c.GSLBMonitor? ==>
            forall n <- Wanted(request, w.config, c) ::
              Object(c, n) in DEVICE_OBJECTS || n in NamesOf(w.config, c))
  }

  predicate GslbReady(request: Names, w: World)
  {
    forall c <- GSLB_CLASSES, n <- NamesOf(request, c) :: Object(c, n) in w.device
  }

  lemma {:induction false} ItemsReady(w: World, c: Class, names: seq<string>, n: nat)
    requires n <= |names| && w.refused == {} && Consistent(w)
    ensures ItemsDeleted(w, c, names, n).Some? <==>
      (c.Route? || c.Tunnel? || c.GSLBMonitor? ==>
         forall i | 0 <= i < n :: Retained(c, names[i]) || names[i] in NamesOf(w.config, c))
  {
    hide DEVICE_OBJECTS, Retained, Consistent, Concerns, Without, Vanishing;
    if n > 0 {
      ItemsReady(w, c, names, n - 1);
      if ItemsDeleted(w, c, names, n - 1).Some? {
        ItemsGone(w, c, names, n - 1);
        PartnerTwice(c);
        assert NamesOf(ItemsDeleted(w, c, names, n - 1).value.config, c) == NamesOf(w.config, c) || Partner(c).Some?;
      }
    }
  }

  lemma ClassReadyIff(request: Names, w: World, c: Class)
    requires w.refused == {} && Consistent(w)
    ensures ClassDeleted(request, w, c).Some? <==> ClassReady(request, w, c)
  {
    hide DEVICE_OBJECTS, Retained;
    forall n ensures Retained(c, n) <==> Object(c, n) in DEVICE_OBJECTS { RetainedIff(c, n); }
    if c in request && (request[c] == [] ==> c in w.config) {
      var names := Wanted(request, w.config, c);
      if c.RouteDomain? {
        forall o { DomainsMember(names, o); }
        if n :| n in names && !Retained(c, n) && Object(c, n) !in w.device {
          assert Object(c, n) in DomainsToDelete(names);
        }
      } else {
        ItemsReady(w, c, names, |names|);
      }
    }
  }

  /** Deleting one class leaves the others as ready as they were. */
  lemma StaysReady(request: Names, w: World, after: World, c: Class, other: Class, names: seq<string>)
    requires Shrinks(w, after, c, names) && Tracks(w, after) && c != other
    ensures ClassReady(request, after, other) <==> ClassReady(request, w, other)
  {
    hide DEVICE_OBJECTS, Retained;
    if other.RouteDomain? {
      forall n ensures Object(other, n) in after.device <==> Object(other, n) in w.device {
      }
    }
  }

  ghost predicate AllReady(request: Names, w: World, from: nat, n: nat)
    requires n <= |DELETABLE_CLASSES|
  {
    forall i | from <= i < n :: ClassReady(request, w, DELETABLE_CLASSES[i])
  }

  lemma {:induction false} ClassesReady(request: Names, w: World, n: nat)
    requires n <= |DELETABLE_CLASSES| && w.refused == {} && Consistent(w)
    ensures ClassesDeleted(request, w, n).Some? <==> AllReady(request, w, 0, n)
    ensures ClassesDeleted(request, w, n).Some? ==>
      var after := ClassesDeleted(request, w, n).value;
      && Consistent(after) && after.refused == {}
      && forall i | n <= i < |DELETABLE_CLASSES| ::
           ClassReady(request, after, DELETABLE_CLASSES[i]) <==> ClassReady(request, w, DELETABLE_CLASSES[i])
  {
    hide DEVICE_OBJECTS, Retained, ClassReady, Consistent, ClassDeleted, Tracks, Concerns;
    if n > 0 {
      ClassesReady(request, w, n - 1);
      if ClassesDeleted(request, w, n - 1).Some? {
        var c := DELETABLE_CLASSES[n - 1];
        var before := ClassesDeleted(request, w, n - 1).value;
        ClassReadyIff(request, before, c);
        if ClassDeleted(request, before, c).Some? {
          ClassGone(request, before, c);
          var after := ClassDeleted(request, before, c).value;
          forall i | n <= i < |DELETABLE_CLASSES| ensures
            ClassReady(request, after, DELETABLE_CLASSES[i]) <==> ClassReady(request, w, DELETABLE_CLASSES[i])
          {
            RankOf(n - 1);
            RankOf(i);
            StaysReady(request, before, after, c, DELETABLE_CLASSES[i], Wanted(request, before.config, c));
          }
        }
      }
    }
  }

  /**
   * On a device that refuses nothing the handler gets through exactly when what it looks up and what it deletes in a
   * transaction is there; every other missing object is ignored.
   */
  lemma GetsThroughIff(request: Names, w: World)
    requires w.refused == {} && Consistent(w) && w.trace == []
    ensures Processed(request, w).Some? <==>
      GslbReady(request, w) && forall c: Class | c !in GSLB_CLASSES :: ClassReady(request, w, c)
  {
    hide DEVICE_OBJECTS, Retained, ClassReady, Consistent, ClassDeleted;
    assert GSLB_CLASSES[..|GSLB_CLASSES|] == GSLB_CLASSES;
    var targets := GslbTargets(request, |GSLB_CLASSES|);
    forall o ensures o in targets <==> o.cls in GSLB_CLASSES && o.name in NamesOf(request, o.cls) {
      GslbMember(request, |GSLB_CLASSES|, o);
    }
    if GslbReady(request, w) {
      assert Transaction(w, GSLBServer, targets).Some?;
      var first := Transaction(w, GSLBServer, targets).value;
      GslbStep(request, w);
      ClassesReady(request, first, |DELETABLE_CLASSES|);
      forall c: Class | c !in GSLB_CLASSES
        ensures ClassReady(request, first, c) <==> ClassReady(request, w, c)
      {
        GslbLeavesReady(request, w, first, c);
        Deletable(c);
      }
      forall i | 0 <= i < |DELETABLE_CLASSES| ensures DELETABLE_CLASSES[i] !in GSLB_CLASSES { RankOf(i); }
      forall c: Class | c !in GSLB_CLASSES && AllReady(request, first, 0, |DELETABLE_CLASSES|)
        ensures ClassReady(request, first, c)
      {
        Deletable(c);
      }
    } else {
      var c, n :| c in GSLB_CLASSES && n in NamesOf(request, c) && Object(c, n) !in w.device;
      assert Object(c, n) in targets;
    }
  }

  lemma GslbLeavesReady(request: Names, w: World, first: World, c: Class)
    requires Transaction(w, GSLBServer, GslbTargets(request, |GSLB_CLASSES|)) == Some(first) && c !in GSLB_CLASSES
    ensures ClassReady(request, first, c) <==> ClassReady(request, w, c)
  {
    hide DEVICE_OBJECTS, Retained, Transaction, GslbTargets;
    GslbVanishes(request, w, Object(c, ""));
    forall n ensures Object(c, n) in first.device <==> Object(c, n) in w.device {
      GslbVanishes(request, w, Object(c, n));
    }
  }

  /** An object that is not an address or port list goes exactly when it is asked for and not retained. */
  lemma ExactlyGone(request: Names, w: World, c: Class, name: string)
    requires Consistent(w) && w.trace == [] && Processed(request, w).Some?
    requires Partner(c).None? && c !in GSLB_CLASSES && Object(c, name) in w.device
    ensures Object(c, name) !in Processed(request, w).value.device
      <==> name in Wanted(request, w.config, c) && Object(c, name) !in DEVICE_OBJECTS
  {
    hide DEVICE_OBJECTS, Retained, Processed, Consistent, Wanted;
    var o := Object(c, name);
    if name in Wanted(request, w.config, c) && o !in DEVICE_OBJECTS {
      Complete(request, w, c, name);
    }
    Restrained(request, w);
    if o !in Processed(request, w).value.device {
      assert Asked(request, w.config, o);
      AskedByName(request, w.config, o);
    }
  }

  lemma AskedByName(request: Names, config: Names, o: Object)
    requires Asked(request, config, o) && Partner(o.cls).None?
    ensures o.name in Wanted(request, config, o.cls)
  {
  }

  // ---------------------------------------------------------------- a list and its namesake

  /** Namesakes that were both on the device at first are still both there, or both gone. */
  ghost predicate Together(first: World, w: World)
  {
    forall p: Class, n | Partner(p).Some?
      && Object(p, n) in first.device && Object(Partner(p).value, n) in first.device ::
      Object(p, n) in w.device <==> Object(Partner(p).value, n) in w.device
  }

  lemma DeletedTogether(first: World, w: World, during: Class, target: Object)
    requires Together(first, w) && Deleted(w, during, target).Some?
    ensures Together(first, Deleted(w, during, target).value)
  {
    PartnerTwice(target.cls);
  }

  lemma ItemTogether(first: World, w: World, c: Class, name: string)
    requires Together(first, w) && ItemDeleted(w, c, name).Some?
    ensures Together(first, ItemDeleted(w, c, name).value)
  {
    hide DEVICE_OBJECTS, Retained, Deleted, Partner;
    if Partner(c).Some? {
      var other := Partner(c).value;
      if name in NamesOf(w.config, other) {
        DeletedTogether(first, w.(config := w.config[other := Without(w.config[other], name)]), c, Object(other, name));
      } else {
        DeletedTogether(first, w, c, Object(c, name));
      }
    } else if !Retained(c, name) {
      DeletedTogether(first, w, c, Object(c, name));
    }
  }

  lemma {:induction false} ItemsTogether(first: World, w: World, c: Class, names: seq<string>, n: nat)
    requires n <= |names| && Together(first, w) && ItemsDeleted(w, c, names, n).Some?
    ensures Together(first, ItemsDeleted(w, c, names, n).value)
  {
    hide Together, ItemDeleted;
    if n > 0 {
      ItemsTogether(first, w, c, names, n - 1);
      ItemTogether(first, ItemsDeleted(w, c, names, n - 1).value, c, names[n - 1]);
    }
  }

  lemma ClassTogether(request: Names, first: World, w: World, c: Class)
    requires Together(first, w) && ClassDeleted(request, w, c).Some?
    ensures Together(first, ClassDeleted(request, w, c).value)
  {
    hide DEVICE_OBJECTS, Retained, ItemsDeleted;
    if c in request {
      var names := Wanted(request, w.config, c);
      if c.RouteDomain? {
        forall o { DomainsMember(names, o); }
      } else {
        ItemsTogether(first, w, c, names, |names|);
      }
    }
  }

  lemma {:induction false} ClassesTogether(request: Names, first: World, w: World, n: nat)
    requires n <= |DELETABLE_CLASSES| && Together(first, w) && ClassesDeleted(request, w, n).Some?
    ensures Together(first, ClassesDeleted(request, w, n).value)
  {
    hide Together, ClassDeleted;
    if n > 0 {
      ClassesTogether(request, first, w, n - 1);
      ClassTogether(request, first, ClassesDeleted(request, w, n - 1).value, DELETABLE_CLASSES[n - 1]);
    }
  }

  lemma GslbTogether(request: Names, w: World)
    requires Transaction(w, GSLBServer, GslbTargets(request, |GSLB_CLASSES|)).Some?
    ensures Together(w, Transaction(w, GSLBServer, GslbTargets(request, |GSLB_CLASSES|)).value)
  {
    hide Transaction, GslbTargets;
    var first := Transaction(w, GSLBServer, GslbTargets(request, |GSLB_CLASSES|)).value;
    forall p: Class, n | Partner(p).Some? && Object(p, n) in w.device && Object(Partner(p).value, n) in w.device
      ensures Object(p, n) in first.device && Object(Partner(p).value, n) in first.device
    {
      PartnerTwice(p);
      GslbVanishes(request, w, Object(p, n));
      GslbVanishes(request, w, Object(Partner(p).value, n));
    }
  }

  /** A list of a pair goes exactly when it or its namesake is asked for. */
  lemma ListGoneIff(request: Names, w: World, c: Class, name: string)
    requires Consistent(w) && w.trace == [] && Processed(request, w).Some? && Partner(c).Some?
    requires Object(c, name) in w.device
    requires var other := Partner(c).value;
      name in Wanted(request, w.config, other) ==> Object(other, name) in w.device
    ensures Object(c, name) !in Processed(request, w).value.device
      <==> name in Wanted(request, w.config, c) + Wanted(request, w.config, Partner(c).value)
  {
    hide DEVICE_OBJECTS, Retained, Processed, Consistent, Wanted;
    var other := Partner(c).value;
    PartnerTwice(c);
    PartnerTwice(other);
    ListsAreNotGslb(c);
    RetainedIff(c, name);
    RetainedIff(other, name);
    if name in Wanted(request, w.config, c) {
      Complete(request, w, c, name);
    } else if name in Wanted(request, w.config, other) {
      Complete(request, w, other, name);
      AllTogether(request, w);
    }
    Restrained(request, w);
    if Object(c, name) !in Processed(request, w).value.device {
      AskedAsEither(request, w.config, Object(c, name));
    }
  }

  lemma ListsAreNotGslb(c: Class)
    requires Partner(c).Some?
    ensures c !in GSLB_CLASSES && Partner(c).value !in GSLB_CLASSES
  {
  }

  lemma AllTogether(request: Names, w: World)
    requires Processed(request, w).Some?
    ensures Together(w, Processed(request, w).value)
  {
    hide Together, Transaction, GslbTargets, ClassesDeleted;
    GslbTogether(request, w);
    var first := Transaction(w, GSLBServer, GslbTargets(request, |GSLB_CLASSES|)).value;
    ClassesTogether(request, w, first, |DELETABLE_CLASSES|);
  }

  lemma AskedAsEither(request: Names, config: Names, o: Object)
    requires Asked(request, config, o) && Partner(o.cls).Some?
    ensures o.name in Wanted(request, config, o.cls) + Wanted(request, config, Partner(o.cls).value)
  {
    hide Wanted;
    PartnerTwice(o.cls);
  }

  // ---------------------------------------------------------------- what is sent

  /** A deletion of the object, or of its namesake, has been sent. */
  ghost predicate Sent(trace: seq<Command>, c: Class, x: string)
  {
    exists i | 0 <= i < |trace| ::
      trace[i].target.name == x && (trace[i].target.cls == c || Partner(c) == Some(trace[i].target.cls))
  }

  /** The trace has grown, and what has left the current configuration has been sent. */
  ghost predicate Sends(w: World, after: World)
  {
    && w.trace <= after.trace
    && forall p, n | n in NamesOf(w.config, p) :: n in NamesOf(after.config, p) || Sent(after.trace, p, n)
  }

  lemma SentGrows(trace: seq<Command>, more: seq<Command>, c: Class, x: string)
    requires Sent(trace, c, x) && trace <= more
    ensures Sent(more, c, x)
  {
    var i :| 0 <= i < |trace|
      && trace[i].target.name == x && (trace[i].target.cls == c || Partner(c) == Some(trace[i].target.cls));
    assert more[i] == trace[i];
  }

  lemma SendsTrans(a: World, b: World, c: World)
    requires Sends(a, b) && Sends(b, c)
    ensures Sends(a, c)
  {
    hide Sent;
    forall p, n | n in NamesOf(a.config, p) ensures n in NamesOf(c.config, p) || Sent(c.trace, p, n) {
      if n !in NamesOf(b.config, p) { SentGrows(b.trace, c.trace, p, n); }
    }
  }

  lemma ItemSends(w: World, c: Class, name: string)
    requires ItemDeleted(w, c, name).Some?
    ensures Sends(w, ItemDeleted(w, c, name).value)
    ensures !Retained(c, name) ==> Sent(ItemDeleted(w, c, name).value.trace, c, name)
  {
    hide Retained, Vanishing;
    PartnerTwice(c);
    var after := ItemDeleted(w, c, name).value;
    if !Retained(c, name) {
      assert |after.trace| == |w.trace| + 1;
      assert after.trace[|w.trace|].target.name == name;
      assert Sent(after.trace, c, name);
    }
    forall p, n | n in NamesOf(w.config, p) ensures n in NamesOf(after.config, p) || Sent(after.trace, p, n) {
      if p in w.config { WithoutMember(w.config[p], name, n); }
      if n !in NamesOf(after.config, p) {
        assert Partner(c) == Some(p) && n == name && after.trace[|w.trace|].target == Object(p, n);
      }
    }
  }

  lemma {:induction false} ItemsSend(w: World, c: Class, names: seq<string>, n: nat)
    requires n <= |names| && ItemsDeleted(w, c, names, n).Some?
    ensures Sends(w, ItemsDeleted(w, c, names, n).value)
    ensures forall i | 0 <= i < n && !Retained(c, names[i]) ::
      Sent(ItemsDeleted(w, c, names, n).value.trace, c, names[i])
  {
    hide Retained, ItemDeleted, Sent;
    if n > 0 {
      ItemsSend(w, c, names, n - 1);
      var before, after := ItemsDeleted(w, c, names, n - 1).value, ItemsDeleted(w, c, names, n).value;
      ItemSends(before, c, names[n - 1]);
      SendsTrans(w, before, after);
      forall i | 0 <= i < n - 1 && !Retained(c, names[i]) ensures Sent(after.trace, c, names[i]) {
        SentGrows(before.trace, after.trace, c, names[i]);
      }
    }
  }

  lemma TransactionSends(w: World, during: Class, targets: seq<Object>)
    requires Transaction(w, during, targets).Some?
    ensures Sends(w, Transaction(w, during, targets).value)
    ensures forall o <- targets :: Sent(Transaction(w, during, targets).value.trace, o.cls, o.name)
  {
    var after := Transaction(w, during, targets).value;
    forall o <- targets ensures Sent(after.trace, o.cls, o.name) {
      var i :| 0 <= i < |targets| && targets[i] == o;
      assert after.trace[|w.trace| + i].target == o;
    }
  }

  lemma ClassSends(request: Names, w: World, c: Class)
    requires ClassDeleted(request, w, c).Some?
    ensures Sends(w, ClassDeleted(request, w, c).value)
    ensures forall n <- Wanted(request, w.config, c) ::
      Retained(c, n) || Sent(ClassDeleted(request, w, c).value.trace, c, n)
  {
    hide Retained, ItemsDeleted, Transaction, DomainsToDelete, Sent;
    if c in request {
      var names := Wanted(request, w.config, c);
      if c.RouteDomain? {
        TransactionSends(w, c, DomainsToDelete(names));
        forall n <- names ensures Retained(c, n) || Sent(ClassDeleted(request, w, c).value.trace, c, n) {
          DomainsMember(names, Object(c, n));
        }
      } else {
        ItemsSend(w, c, names, |names|);
        forall n <- names ensures Retained(c, n) || Sent(ClassDeleted(request, w, c).value.trace, c, n) {
          var i :| 0 <= i < |names| && names[i] == n;
        }
      }
    }
  }

  lemma {:induction false} ClassesSend(request: Names, w: World, n: nat)
    requires n <= |DELETABLE_CLASSES| && ClassesDeleted(request, w, n).Some?
    ensures Sends(w, ClassesDeleted(request, w, n).value)
    ensures forall i, x | 0 <= i < n && x in Wanted(request, w.config, DELETABLE_CLASSES[i]) ::
      Retained(DELETABLE_CLASSES[i], x) || Sent(ClassesDeleted(request, w, n).value.trace, DELETABLE_CLASSES[i], x)
  {
    hide Retained, ClassDeleted, Sent, Wanted;
    if n > 0 {
      ClassesSend(request, w, n - 1);
      var before, after := ClassesDeleted(request, w, n - 1).value, ClassesDeleted(request, w, n).value;
      ClassSends(request, before, DELETABLE_CLASSES[n - 1]);
      SendsTrans(w, before, after);
      forall i, x | 0 <= i < n && x in Wanted(request, w.config, DELETABLE_CLASSES[i])
        ensures Retained(DELETABLE_CLASSES[i], x) || Sent(after.trace, DELETABLE_CLASSES[i], x)
      {
        var c := DELETABLE_CLASSES[i];
        if i == n - 1 && x !in Wanted(request, before.config, c) {
          LeftIsSent(request, w, before, c, x);
          SentGrows(before.trace, after.trace, c, x);
        } else if i < n - 1 && !Retained(c, x) {
          SentGrows(before.trace, after.trace, c, x);
        }
      }
    }
  }

  lemma LeftIsSent(request: Names, w: World, before: World, c: Class, x: string)
    requires Sends(w, before) && x in Wanted(request, w.config, c) && x !in Wanted(request, before.config, c)
    ensures Sent(before.trace, c, x)
  {
    hide Sent;
  }

  /**
   * A deletion is sent for every object that is asked for, whether it is on the device or not; for a list it may be
   * that of its namesake.
   */
  lemma EverythingSent(request: Names, w: World, o: Object)
    requires w.trace == [] && Processed(request, w).Some? && o !in DEVICE_OBJECTS
    requires if o.cls in GSLB_CLASSES then o.name in NamesOf(request, o.cls)
             else o.name in Wanted(request, w.config, o.cls)
    ensures Sent(Processed(request, w).value.trace, o.cls, o.name)
  {
    hide Retained, DEVICE_OBJECTS, ClassesDeleted, Transaction, Sent, Wanted;
    RetainedIff(o.cls, o.name);
    var targets := GslbTargets(request, |GSLB_CLASSES|);
    var first := Transaction(w, GSLBServer, targets).value;
    TransactionSends(w, GSLBServer, targets);
    GslbMember(request, |GSLB_CLASSES|, o);
    assert GSLB_CLASSES[..|GSLB_CLASSES|] == GSLB_CLASSES;
    GslbVanishes(request, w, o);
    ClassesSend(request, first, |DELETABLE_CLASSES|);
    var after := Processed(request, w).value;
    if o.cls in GSLB_CLASSES {
      SentGrows(first.trace, after.trace, o.cls, o.name);
    } else {
      Deletable(o.cls);
    }
  }

  const SERVER := Object(GSLBServer, "server")

  /** A device with one GSLB server, and a delete declaration that says all of them: the server stays. */
  lemma EmptyGslbClassDeletesNothing()
    ensures var w := World({SERVER}, {}, map[GSLBServer := ["server"]], []);
      var after := Processed(map[GSLBServer := []], w);
      after.Some? && SERVER in after.value.device
  {
    hide DEVICE_OBJECTS, Retained, Processed;
    var w := World({SERVER}, {}, map[GSLBServer := ["server"]], []);
    var request: Names := map[GSLBServer := []];
    assert GSLBServer in GSLB_CLASSES by { assert GSLB_CLASSES[1] == GSLBServer; }
    forall c: Class | c !in GSLB_CLASSES ensures ClassReady(request, w, c) {
      assert c !in request;
    }
    GetsThroughIff(request, w);
    GslbOnlyByName(request, w, SERVER);
  }
}
