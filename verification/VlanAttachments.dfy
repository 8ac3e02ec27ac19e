/**
 * Placement in terms of the current configuration itself: an attached VLAN belongs to the last current route domain
 * that lists it, and returns to the last declared route domain with that id.
 */
module VlanAttachments {
  import opened Prelude
  import opened VlanNames
  import opened RouteDomains
  import opened VlanConservation
  import opened VlanPlacement
  import opened VlanTheorems

  predicate Lists(rd: RouteDomain, v: string) { rd.vlans.Some? && v in rd.vlans.value }

  predicate LastLister(current: seq<RouteDomain>, v: string, i: int)
  {
    0 <= i < |current| && Lists(current[i], v) && forall j | i < j < |current| :: !Lists(current[j], v)
  }

  /** A folderless Common VLAN that the declaration does not have. */
  predicate Stray(naming: Naming, declared: seq<string>, v: string)
  {
    naming.tag(v).Plain? && (naming.tag(v).name.None? || naming.tag(v).name.value !in declared)
  }

  // ---------------------------------------------------------------- what is recorded

  lemma {:induction false} PutGives(xs: seq<Attachment>, vlan: string, id: string, x: Attachment)
    requires Occurs(xs, vlan) <= 1
    ensures x in Put(xs, vlan, id) <==> if x.vlan == vlan then x.id == id else x in xs
  {
    if xs != [] {
      if xs[0].vlan == vlan {
        if x in xs[1..] && x.vlan == vlan { OccursHasKey(xs[1..], vlan); }
      } else {
        PutGives(xs[1..], vlan, id, x);
      }
    }
  }

  lemma {:induction false} CollectGives(naming: Naming, vlans: seq<string>, id: string, declared: seq<string>,
                                        into: seq<Attachment>, x: Attachment)
    requires forall k :: Occurs(into, k) <= 1
    ensures x in CollectList(naming, vlans, id, declared, into) <==>
      if Stray(naming, declared, x.vlan) && x.vlan in vlans then x.id == id else x in into
    decreases |vlans|
  {
    if vlans != [] {
      var n := |vlans| - 1;
      CollectGives(naming, vlans[..n], id, declared, into, x);
      CollectFacts(naming, vlans[..n], id, declared, into, vlans[n]);
      PutGives(CollectList(naming, vlans[..n], id, declared, into), vlans[n], id, x);
      assert vlans == vlans[..n] + [vlans[n]];
    }
  }

  /** What is recorded: every stray VLAN of the device, with the id of the last route domain that lists it. */
  lemma {:induction false} AttachedIff(naming: Naming, current: seq<RouteDomain>, declared: seq<string>, x: Attachment)
    ensures x in Attached(naming, current, declared) <==>
      Stray(naming, declared, x.vlan) && exists i :: LastLister(current, x.vlan, i) && current[i].id == x.id
    decreases |current|
  {
    if current == [] {
      assert forall i :: !LastLister(current, x.vlan, i);
    } else {
      var n := |current| - 1;
      var before := Attached(naming, current[..n], declared);
      AttachedIff(naming, current[..n], declared, x);
      forall k ensures Occurs(before, k) <= 1 { AttachedFacts(naming, current[..n], declared, k); }
      if current[n].vlans.Some? {
        CollectGives(naming, current[n].vlans.value, current[n].id, declared, before, x);
      }
      LastListerNext(current, x.vlan);
      forall i | LastLister(current[..n], x.vlan, i) ensures current[..n][i] == current[i] {}
      if Lists(current[n], x.vlan) { assert LastLister(current, x.vlan, n); }
    }
  }

  lemma LastListerNext(current: seq<RouteDomain>, v: string)
    requires current != []
    ensures var n := |current| - 1;
      forall i :: LastLister(current, v, i) <==>
        if Lists(current[n], v) then i == n else LastLister(current[..n], v, i)
  {
  }

  lemma {:induction false} LastExists(current: seq<RouteDomain>, v: string) returns (i: int)
    requires v in Listed(current)
    ensures LastLister(current, v, i)
    decreases |current|
  {
    var n := |current| - 1;
    if Lists(current[n], v) {
      i := n;
    } else {
      var rd :| rd in current && v in VlansOf(rd);
      assert rd in current[..n];
      i := LastExists(current[..n], v);
    }
  }

  // ---------------------------------------------------------------- placement

  /** A stray VLAN stays exactly if some route domain lists it or the id of its last current lister survives. */
  lemma AttachedPlacement(naming: Naming, rds: seq<RouteDomain>, declared: seq<string>, current: seq<RouteDomain>,
                          v: string, i: int)
    requires Lawful(naming, declared, Listed(current)) && NoDuplicates(declared)
    requires Stray(naming, declared, v) && LastLister(current, v, i)
    ensures Total(naming, Fixed(naming, rds, declared, current), v)
      == One(Total(naming, rds, v) >= 1 || HasId(rds, current[i].id))
  {
    AttachedIff(naming, current, declared, Attachment(v, current[i].id));
    AttachmentPlacement(naming, rds, declared, current, Attachment(v, current[i].id));
  }

  /** No stale VLAN: an entry that is neither declared nor listed by the device occurs nowhere. */
  lemma NoStale(naming: Naming, rds: seq<RouteDomain>, declared: seq<string>, current: seq<RouteDomain>, k: string)
    requires Lawful(naming, declared, Listed(current)) && NoDuplicates(declared)
    requires !Declares(naming, declared, k) && k !in Listed(current)
    ensures Total(naming, Fixed(naming, rds, declared, current), k) == 0
  {
    AttachedFacts(naming, current, declared, k);
    NeitherPlaced(naming, rds, declared, current, k);
  }

  /** A VLAN the device lists is stray or declared, as soon as it is folderless and in Common. */
  lemma StrayIff(naming: Naming, declared: seq<string>, attached: set<string>, k: string)
    requires Lawful(naming, declared, attached) && k in attached && naming.tag(k).Plain?
    ensures Stray(naming, declared, k) <==> !Declares(naming, declared, k)
  {
  }

  /** The complete answer for every full VLAN name. */
  lemma ExactPlacement(naming: Naming, rds: seq<RouteDomain>, declared: seq<string>, current: seq<RouteDomain>,
                       k: string)
    requires Lawful(naming, declared, Listed(current)) && NoDuplicates(declared) && HasDefault(rds)
    ensures Total(naming, Fixed(naming, rds, declared, current), k) ==
      One(Declares(naming, declared, k)
          || (naming.tag(k).Plain? && exists i ::
                (LastLister(current, k, i) && (Total(naming, rds, k) >= 1 || HasId(rds, current[i].id)))))
  {
    if Declares(naming, declared, k) {
      DeclaredOnce(naming, rds, declared, current, k);
    } else if k in Listed(current) && naming.tag(k).Plain? {
      var i := LastExists(current, k);
      StrayIff(naming, declared, Listed(current), k);
      AttachedPlacement(naming, rds, declared, current, k, i);
      forall j | LastLister(current, k, j) ensures j == i {}
    } else {
      AttachedFacts(naming, current, declared, k);
      NeitherPlaced(naming, rds, declared, current, k);
      forall i | LastLister(current, k, i) ensures !naming.tag(k).Plain? {
        assert current[i] in current && k in VlansOf(current[i]);
      }
    }
  }

  // ---------------------------------------------------------------- where a stray VLAN goes

  /** The last declared route domain with this id. */
  predicate LastWithId(rds: seq<RouteDomain>, id: string, i: int)
  {
    0 <= i < |rds| && rds[i].id == id && forall j | i < j < |rds| :: rds[j].id != id
  }

  lemma {:induction false} PushGoesTo(naming: Naming, rds: seq<RouteDomain>, a: Attachment, i: int)
    requires LastWithId(rds, a.id, i) && naming.tag(a.vlan).Plain? && naming.tag(a.vlan).full == a.vlan
    ensures |PushById(rds, a)| == |rds| && CountIn(naming, PushById(rds, a)[i], a.vlan) >= 1
    decreases |rds|
  {
    PushByIdSame(rds, a);
    var n := |rds| - 1;
    if rds[n].id == a.id {
      PushCount(naming, rds[n], [a.vlan], a.vlan);
      CountOne(naming, a.vlan, a.vlan);
    } else {
      PushGoesTo(naming, rds[..n], a, i);
    }
  }

  lemma {:induction false} GiveBackGoesTo(naming: Naming, rds: seq<RouteDomain>, attached: seq<Attachment>,
                                          a: Attachment, i: int)
    requires a in attached && LastWithId(rds, a.id, i)
    requires naming.tag(a.vlan).Plain? && naming.tag(a.vlan).full == a.vlan
    ensures |GiveBack(rds, attached)| == |rds| && CountIn(naming, GiveBack(rds, attached)[i], a.vlan) >= 1
    decreases |attached|
  {
    GiveBackSame(rds, attached);
    var n := |attached| - 1;
    GiveBackSame(rds, attached[..n]);
    if attached[n] == a {
      PushGoesTo(naming, GiveBack(rds, attached[..n]), a, i);
    } else {
      GiveBackGoesTo(naming, rds, attached[..n], a, i);
      PushByIdAt(naming, GiveBack(rds, attached[..n]), attached[n], i, a.vlan);
    }
  }

  /** A stray VLAN that nobody lists returns to the last declared route domain with the id it had. */
  lemma GoesBack(naming: Naming, rds: seq<RouteDomain>, declared: seq<string>, current: seq<RouteDomain>, v: string,
                 i: int, j: int)
    requires Lawful(naming, declared, Listed(current)) && NoDuplicates(declared)
    requires Stray(naming, declared, v) && LastLister(current, v, i) && Total(naming, rds, v) == 0
    requires LastWithId(rds, current[i].id, j)
    ensures |Fixed(naming, rds, declared, current)| == |rds|
    ensures CountIn(naming, Fixed(naming, rds, declared, current)[j], v) == 1
  {
    var a := Attachment(v, current[i].id);
    var start := Start(naming, declared, current);
    var filtered := FilterAll(naming, rds, start);
    var added := AddToDefault(filtered.kept, filtered.pools.declared);
    var given := GiveBack(added, filtered.pools.attached);
    assert current[i] in current && v in VlansOf(current[i]);
    AttachedIff(naming, current, declared, a);
    StillPooled(naming, rds, declared, current, a);
    AfterFilter(naming, rds, declared, current, v);
    FilterAllSame(naming, rds, start);
    AddToDefaultSame(filtered.kept, filtered.pools.declared);
    GiveBackGoesTo(naming, added, filtered.pools.attached, a, j);
    CountDeclared(naming, filtered.pools.declared, v, declared, Listed(current));
    AddToDefaultEverywhere(IsStable(naming), filtered.kept, filtered.pools.declared);
    GiveBackEverywhere(IsStable(naming), added, filtered.pools.attached);
    FinishAt(naming, given, j);
    assert given[j] in given;
    if given[j].vlans.Some? { FinishCount(naming, given[j].vlans.value, v); }
    AttachedPlacement(naming, rds, declared, current, v, i);
    FinishAt(naming, given, j);
    TotalAt(naming, Fixed(naming, rds, declared, current), j, v);
  }

  /** What nobody lists is still to be given back after the filter. */
  lemma StillPooled(naming: Naming, rds: seq<RouteDomain>, declared: seq<string>, current: seq<RouteDomain>,
                    a: Attachment)
    requires Lawful(naming, declared, Listed(current)) && NoDuplicates(declared)
    requires a in Attached(naming, current, declared) && Total(naming, rds, a.vlan) == 0
    ensures a in FilterAll(naming, rds, Start(naming, declared, current)).pools.attached
  {
    var start := Start(naming, declared, current);
    var filtered := FilterAll(naming, rds, start);
    AfterFilter(naming, rds, declared, current, a.vlan);
    OccursMember(start.attached, a.vlan);
    if Declares(naming, declared, a.vlan) { DeclaredNotAttached(naming, declared, current, a.vlan); }
    WaitingOnce(naming, declared, declared, Listed(current), a.vlan);
    FilterTakes(naming, rds, start, a.vlan, declared, Listed(current));
    OccursMember(filtered.pools.attached, a.vlan);
    var x :| x in filtered.pools.attached && x.vlan == a.vlan;
    OccursUnique(start.attached, x, a);
  }

  lemma {:induction false} NobodyBefore(naming: Naming, rds: seq<RouteDomain>, k: string)
    requires forall j | 0 <= j < |rds| :: CountIn(naming, rds[j], k) == 0
    ensures Total(naming, rds, k) == 0
  {
    if rds != [] {
      NobodyBefore(naming, rds[1..], k);
    }
  }

  /** A stray VLAN that is listed stays with the first route domain, in iteration order, that lists it. */
  lemma StaysWithFirstLister(naming: Naming, rds: seq<RouteDomain>, declared: seq<string>, current: seq<RouteDomain>,
                             v: string, i: int, j: nat)
    requires Lawful(naming, declared, Listed(current)) && NoDuplicates(declared)
    requires Stray(naming, declared, v) && LastLister(current, v, i)
    requires j < |rds| && CountIn(naming, rds[j], v) >= 1
    requires forall m | 0 <= m < j :: CountIn(naming, rds[m], v) == 0
    ensures |Fixed(naming, rds, declared, current)| == |rds|
    ensures CountIn(naming, Fixed(naming, rds, declared, current)[j], v) == 1
  {
    var a := Attachment(v, current[i].id);
    var start := Start(naming, declared, current);
    var filtered := FilterAll(naming, rds, start);
    var before := FilterAll(naming, rds[..j], start);
    assert current[i] in current && v in VlansOf(current[i]);
    AttachedIff(naming, current, declared, a);
    AttachedFacts(naming, current, declared, v);
    StrayIff(naming, declared, Listed(current), v);
    WaitingOnce(naming, declared, declared, Listed(current), v);
    OccursMember(start.attached, v);
    NobodyBefore(naming, rds[..j], v);
    FilterTakes(naming, rds[..j], start, v, declared, Listed(current));
    ListTakes(naming, rds[j].vlans.value, before.pools, v, declared, Listed(current));
    ListConserves(naming, rds[j].vlans.value, before.pools, v, declared, Listed(current));
    FilterAt(naming, rds, start, j);
    AddToDefaultAt(naming, filtered.kept, filtered.pools.declared, j, v);
    FixedAt(naming, rds, declared, current, j, v);
    AttachedPlacement(naming, rds, declared, current, v, i);
    TotalAt(naming, Fixed(naming, rds, declared, current), j, v);
  }
}
