/**
 * Where VLANs go. The central law counts, for one full VLAN name, its entries in the route domains plus its
 * occurrences in the pools of VLANs still to be placed: filtering never changes the sum.
 */
module VlanConservation {
  import opened Prelude
  import opened VlanNames
  import opened RouteDomains

  // ---------------------------------------------------------------- counting

  predicate Denotes(naming: Naming, entry: string, k: string)
  {
    naming.tag(entry).Plain? && naming.tag(entry).full == k
  }

  function One(b: bool): nat { if b then 1 else 0 }

  function Count(naming: Naming, vlans: seq<string>, k: string): nat
  {
    if vlans == [] then 0 else One(Denotes(naming, vlans[0], k)) + Count(naming, vlans[1..], k)
  }

  function CountIn(naming: Naming, rd: RouteDomain, k: string): nat
  {
    if rd.vlans.None? then 0 else Count(naming, rd.vlans.value, k)
  }

  /** Occurrences of a VLAN over all route domains. */
  function Total(naming: Naming, rds: seq<RouteDomain>, k: string): nat
  {
    if rds == [] then 0 else CountIn(naming, rds[0], k) + Total(naming, rds[1..], k)
  }

  function Waiting(naming: Naming, declared: seq<string>, k: string): nat
  {
    if declared == [] then 0 else One(naming.full(declared[0]) == k) + Waiting(naming, declared[1..], k)
  }

  function Occurs(attached: seq<Attachment>, k: string): nat
  {
    if attached == [] then 0 else One(attached[0].vlan == k) + Occurs(attached[1..], k)
  }

  function Pooled(naming: Naming, pools: Pools, k: string): nat
  {
    Waiting(naming, pools.declared, k) + Occurs(pools.attached, k)
  }

  lemma {:induction false} CountConcat(naming: Naming, a: seq<string>, b: seq<string>, k: string)
    ensures Count(naming, a + b, k) == Count(naming, a, k) + Count(naming, b, k)
  {
    if a == [] {
      assert a + b == b;
    } else {
      assert (a + b)[1..] == a[1..] + b;
      CountConcat(naming, a[1..], b, k);
    }
  }

  lemma {:induction false} TotalConcat(naming: Naming, a: seq<RouteDomain>, b: seq<RouteDomain>, k: string)
    ensures Total(naming, a + b, k) == Total(naming, a, k) + Total(naming, b, k)
  {
    if a == [] {
      assert a + b == b;
    } else {
      assert (a + b)[1..] == a[1..] + b;
      TotalConcat(naming, a[1..], b, k);
    }
  }

  lemma CountOne(naming: Naming, e: string, k: string)
    ensures Count(naming, [e], k) == One(Denotes(naming, e, k))
  {
    assert [e][1..] == [];
  }

  lemma TotalOne(naming: Naming, rd: RouteDomain, k: string)
    ensures Total(naming, [rd], k) == CountIn(naming, rd, k)
  {
    assert [rd][1..] == [];
  }

  lemma {:induction false} RemoveWaiting(naming: Naming, xs: seq<string>, v: string, k: string)
    requires v in xs
    ensures Waiting(naming, Remove(xs, v), k) == Waiting(naming, xs, k) - One(naming.full(v) == k)
  {
    if xs[0] != v {
      RemoveWaiting(naming, xs[1..], v, k);
      assert ([xs[0]] + Remove(xs[1..], v))[1..] == Remove(xs[1..], v);
    }
  }

  lemma {:induction false} RemoveMembers(xs: seq<string>, v: string)
    ensures forall x <- Remove(xs, v) :: x in xs
    ensures forall x <- xs :: x == v || x in Remove(xs, v)
  {
    if xs != [] && xs[0] != v {
      RemoveMembers(xs[1..], v);
    }
  }

  lemma {:induction false} OccursHasKey(xs: seq<Attachment>, k: string)
    ensures HasKey(xs, k) <==> Occurs(xs, k) >= 1
  {
    if xs != [] {
      OccursHasKey(xs[1..], k);
      if HasKey(xs, k) && xs[0].vlan != k {
        var x :| x in xs && x.vlan == k;
        assert x in xs[1..];
      }
      if HasKey(xs[1..], k) {
        var x :| x in xs[1..] && x.vlan == k;
        assert x in xs;
      }
    }
  }

  lemma {:induction false} DropOccurs(xs: seq<Attachment>, v: string, k: string)
    ensures Occurs(Drop(xs, v), k) == if v == k then 0 else Occurs(xs, k)
    ensures forall x :: x in Drop(xs, v) <==> x in xs && x.vlan != v
  {
    if xs != [] {
      DropOccurs(xs[1..], v, k);
      assert ([xs[0]] + Drop(xs[1..], v))[1..] == Drop(xs[1..], v);
    }
  }

  lemma {:induction false} PutOccurs(xs: seq<Attachment>, v: string, id: string, k: string)
    requires Occurs(xs, k) <= 1
    ensures Occurs(Put(xs, v, id), k) == if v == k then 1 else Occurs(xs, k)
  {
    if xs == [] {
      assert [Attachment(v, id)][1..] == [];
    } else if xs[0].vlan == v {
      assert ([Attachment(v, id)] + xs[1..])[1..] == xs[1..];
    } else {
      PutOccurs(xs[1..], v, id, k);
      assert ([xs[0]] + Put(xs[1..], v, id))[1..] == Put(xs[1..], v, id);
    }
  }

  lemma {:induction false} PutMembers(xs: seq<Attachment>, v: string, id: string)
    ensures forall x <- Put(xs, v, id) :: x in xs || x == Attachment(v, id)
  {
    if xs != [] && xs[0].vlan != v {
      PutMembers(xs[1..], v, id);
    }
  }

  // ---------------------------------------------------------------- filtering conserves

  lemma EntryConserves(naming: Naming, vlan: string, before: Filtered<string>, k: string,
                       declared: seq<string>, attached: set<string>)
    requires Lawful(naming, declared, attached) && Occurs(before.pools.attached, k) <= 1
    ensures var after := FilterEntry(naming, vlan, before);
      && Count(naming, after.kept, k) + Pooled(naming, after.pools, k)
         == Count(naming, before.kept, k) + Pooled(naming, before.pools, k)
      && Occurs(after.pools.attached, k) <= 1
  {
    var tag := naming.tag(vlan);
    CountConcat(naming, before.kept, [vlan], k);
    CountOne(naming, vlan, k);
    if tag.Plain? {
      if tag.name.Some? && tag.name.value in before.pools.declared {
        RemoveWaiting(naming, before.pools.declared, tag.name.value, k);
      } else {
        OccursHasKey(before.pools.attached, tag.full);
        DropOccurs(before.pools.attached, tag.full, k);
      }
    }
  }

  lemma {:induction false} ListConserves(naming: Naming, vlans: seq<string>, pools: Pools, k: string,
                                         declared: seq<string>, attached: set<string>)
    requires Lawful(naming, declared, attached) && Occurs(pools.attached, k) <= 1
    ensures var after := FilterList(naming, vlans, pools);
      && Count(naming, after.kept, k) + Pooled(naming, after.pools, k) == Pooled(naming, pools, k)
      && Occurs(after.pools.attached, k) <= 1
    decreases |vlans|
  {
    if vlans != [] {
      var n := |vlans| - 1;
      ListConserves(naming, vlans[..n], pools, k, declared, attached);
      EntryConserves(naming, vlans[n], FilterList(naming, vlans[..n], pools), k, declared, attached);
    }
  }

  /** Conservation: what the lists keep plus what still waits is what waited at the start. */
  lemma {:induction false} FilterConserves(naming: Naming, rds: seq<RouteDomain>, pools: Pools, k: string,
                                           declared: seq<string>, attached: set<string>)
    requires Lawful(naming, declared, attached) && Occurs(pools.attached, k) <= 1
    ensures var after := FilterAll(naming, rds, pools);
      && Total(naming, after.kept, k) + Pooled(naming, after.pools, k) == Pooled(naming, pools, k)
      && Occurs(after.pools.attached, k) <= 1
    decreases |rds|
  {
    if rds != [] {
      var n := |rds| - 1;
      var before := FilterAll(naming, rds[..n], pools);
      FilterConserves(naming, rds[..n], pools, k, declared, attached);
      var after := FilterAll(naming, rds, pools);
      TotalConcat(naming, before.kept, [after.kept[|before.kept|]], k);
      TotalOne(naming, after.kept[|before.kept|], k);
      if rds[n].vlans.Some? {
        ListConserves(naming, rds[n].vlans.value, before.pools, k, declared, attached);
      }
    }
  }

  // ---------------------------------------------------------------- the pools and their members

  /** The pools hold declared names and listed, undeclared, folderless Common VLANs. */
  ghost predicate PoolsWithin(naming: Naming, pools: Pools, declared: seq<string>, attached: set<string>)
  {
    && (forall v <- pools.declared :: v in declared)
    && (forall x <- pools.attached :: x.vlan in attached && naming.tag(x.vlan).Plain?)
  }

  lemma {:induction false} FilterListWithin(naming: Naming, vlans: seq<string>, pools: Pools,
                                            declared: seq<string>, attached: set<string>)
    requires PoolsWithin(naming, pools, declared, attached)
    ensures PoolsWithin(naming, FilterList(naming, vlans, pools).pools, declared, attached)
    ensures forall x <- FilterList(naming, vlans, pools).pools.attached :: x in pools.attached
    decreases |vlans|
  {
    if vlans != [] {
      var n := |vlans| - 1;
      FilterListWithin(naming, vlans[..n], pools, declared, attached);
      var before := FilterList(naming, vlans[..n], pools);
      var tag := naming.tag(vlans[n]);
      if tag.Plain? {
        if tag.name.Some? { RemoveMembers(before.pools.declared, tag.name.value); }
        DropOccurs(before.pools.attached, tag.full, "");
      }
    }
  }

  lemma {:induction false} FilterAllWithin(naming: Naming, rds: seq<RouteDomain>, pools: Pools,
                                           declared: seq<string>, attached: set<string>)
    requires PoolsWithin(naming, pools, declared, attached)
    ensures PoolsWithin(naming, FilterAll(naming, rds, pools).pools, declared, attached)
    ensures forall x <- FilterAll(naming, rds, pools).pools.attached :: x in pools.attached
    decreases |rds|
  {
    if rds != [] {
      var n := |rds| - 1;
      FilterAllWithin(naming, rds[..n], pools, declared, attached);
      if rds[n].vlans.Some? {
        FilterListWithin(naming, rds[n].vlans.value, FilterAll(naming, rds[..n], pools).pools, declared, attached);
      }
    }
  }

  /** Every VLAN the device lists. */
  function Listed(current: seq<RouteDomain>): set<string>
  {
    set rd <- current, v <- VlansOf(rd) :: v
  }

  function VlansOf(rd: RouteDomain): seq<string>
  {
    if rd.vlans.Some? then rd.vlans.value else []
  }

  lemma {:induction false} CollectFacts(naming: Naming, vlans: seq<string>, id: string, declared: seq<string>,
                                        into: seq<Attachment>, k: string)
    requires Occurs(into, k) <= 1
    ensures var after := CollectList(naming, vlans, id, declared, into);
      && Occurs(after, k) <= 1
      && forall x <- after :: x in into ||
           (x.vlan in vlans && naming.tag(x.vlan).Plain?
             && (naming.tag(x.vlan).name.None? || naming.tag(x.vlan).name.value !in declared))
    decreases |vlans|
  {
    if vlans != [] {
      var n := |vlans| - 1;
      CollectFacts(naming, vlans[..n], id, declared, into, k);
      var before := CollectList(naming, vlans[..n], id, declared, into);
      PutOccurs(before, vlans[n], id, k);
      PutMembers(before, vlans[n], id);
    }
  }

  /** Attached VLANs are listed by the device, undeclared, and recorded once. */
  lemma {:induction false} AttachedFacts(naming: Naming, current: seq<RouteDomain>, declared: seq<string>, k: string)
    ensures var attached := Attached(naming, current, declared);
      && Occurs(attached, k) <= 1
      && forall x <- attached :: x.vlan in Listed(current) && naming.tag(x.vlan).Plain?
           && (naming.tag(x.vlan).name.None? || naming.tag(x.vlan).name.value !in declared)
    decreases |current|
  {
    if current != [] {
      var n := |current| - 1;
      AttachedFacts(naming, current[..n], declared, k);
      assert Listed(current[..n]) <= Listed(current);
      var rd := current[n];
      assert rd in current && VlansOf(rd) == if rd.vlans.Some? then rd.vlans.value else [];
      if rd.vlans.Some? {
        CollectFacts(naming, rd.vlans.value, rd.id, declared, Attached(naming, current[..n], declared), k);
        assert forall v <- rd.vlans.value :: v in Listed(current);
      }
    }
  }
}
