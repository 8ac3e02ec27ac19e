/** The main results about applyRouteDomainVlansFix. */
module VlanTheorems {
  import opened Prelude
  import opened VlanNames
  import opened RouteDomains
  import opened VlanConservation
  import opened VlanPlacement

  ghost predicate NoDuplicates<T(!new)>(xs: seq<T>)
  {
    forall i, j | 0 <= i < j < |xs| :: xs[i] != xs[j]
  }

  predicate Declares(naming: Naming, declared: seq<string>, k: string)
  {
    exists v <- declared :: naming.full(v) == k
  }

  // ---------------------------------------------------------------- helpers about the pools

  lemma {:induction false} WaitingOnce(naming: Naming, xs: seq<string>, declared: seq<string>, attached: set<string>,
                                       k: string)
    requires Lawful(naming, declared, attached) && NoDuplicates(xs) && forall v <- xs :: v in declared
    ensures Waiting(naming, xs, k) == One(Declares(naming, xs, k))
  {
    if xs != [] {
      assert forall i | 0 <= i < |xs[1..]| :: xs[1..][i] == xs[i + 1];
      WaitingOnce(naming, xs[1..], declared, attached, k);
      if naming.full(xs[0]) == k {
        assert forall v <- xs[1..] :: naming.full(v) == k ==> v == xs[0];
      }
      assert forall v :: v in xs <==> v == xs[0] || v in xs[1..];
    }
  }

  lemma {:induction false} WaitingZero(naming: Naming, xs: seq<string>, v: string)
    requires v in xs
    ensures Waiting(naming, xs, naming.full(v)) >= 1
  {
    if xs[0] != v {
      WaitingZero(naming, xs[1..], v);
    }
  }

  lemma {:induction false} OccursMember(attached: seq<Attachment>, k: string)
    ensures (exists a <- attached :: a.vlan == k) <==> Occurs(attached, k) >= 1
  {
    OccursHasKey(attached, k);
    assert HasKey(attached, k) <==> exists a <- attached :: a.vlan == k;
  }

  lemma {:induction false} SurvivingBound(rds: seq<RouteDomain>, attached: seq<Attachment>, k: string)
    ensures Surviving(rds, attached, k) <= Occurs(attached, k)
    decreases |attached|
  {
    if attached != [] {
      var n := |attached| - 1;
      SurvivingBound(rds, attached[..n], k);
      OccursConcat(attached[..n], [attached[n]], k);
      assert attached == attached[..n] + [attached[n]];
    }
  }

  lemma {:induction false} OccursConcat(a: seq<Attachment>, b: seq<Attachment>, k: string)
    ensures Occurs(a + b, k) == Occurs(a, k) + Occurs(b, k)
  {
    if a == [] {
      assert a + b == b;
    } else {
      assert (a + b)[1..] == a[1..] + b;
      OccursConcat(a[1..], b, k);
    }
  }

  /** All attachments of `k` carry the same id, so survival is all or nothing. */
  lemma {:induction false} SurvivingExact(rds: seq<RouteDomain>, attached: seq<Attachment>, a: Attachment)
    requires forall x <- attached | x.vlan == a.vlan :: x == a
    ensures Surviving(rds, attached, a.vlan) == if HasId(rds, a.id) then Occurs(attached, a.vlan) else 0
    decreases |attached|
  {
    if attached != [] {
      var n := |attached| - 1;
      assert attached[n] in attached;
      SurvivingExact(rds, attached[..n], a);
      OccursConcat(attached[..n], [attached[n]], a.vlan);
      assert attached == attached[..n] + [attached[n]];
      assert [attached[n]][1..] == [];
    }
  }

  lemma {:induction false} OccursUnique(attached: seq<Attachment>, a: Attachment, b: Attachment)
    requires a in attached && b in attached && a.vlan == b.vlan && Occurs(attached, a.vlan) <= 1
    ensures a == b
  {
    OccursMember(attached[1..], a.vlan);
    if a in attached[1..] && b in attached[1..] {
      OccursUnique(attached[1..], a, b);
    }
  }

  /** An attached VLAN leaves the pool exactly when some list mentions it. */
  lemma {:induction false} ListTakes(naming: Naming, vlans: seq<string>, pools: Pools, k: string,
                                     declared: seq<string>, attached: set<string>)
    requires Lawful(naming, declared, attached)
    requires Waiting(naming, pools.declared, k) == 0 && Occurs(pools.attached, k) <= 1
    ensures var after := FilterList(naming, vlans, pools);
      && Waiting(naming, after.pools.declared, k) == 0
      && Occurs(after.pools.attached, k) == if Count(naming, vlans, k) >= 1 then 0 else Occurs(pools.attached, k)
    decreases |vlans|
  {
    if vlans != [] {
      var n := |vlans| - 1;
      var before := FilterList(naming, vlans[..n], pools);
      ListTakes(naming, vlans[..n], pools, k, declared, attached);
      assert vlans == vlans[..n] + [vlans[n]];
      CountConcat(naming, vlans[..n], [vlans[n]], k);
      CountOne(naming, vlans[n], k);
      var tag := naming.tag(vlans[n]);
      if tag.Plain? {
        if tag.name.Some? && tag.name.value in before.pools.declared {
          RemoveWaiting(naming, before.pools.declared, tag.name.value, k);
        } else {
          OccursHasKey(before.pools.attached, tag.full);
          DropOccurs(before.pools.attached, tag.full, k);
        }
      }
    }
  }

  lemma {:induction false} FilterTakes(naming: Naming, rds: seq<RouteDomain>, pools: Pools, k: string,
                                       declared: seq<string>, attached: set<string>)
    requires Lawful(naming, declared, attached)
    requires Waiting(naming, pools.declared, k) == 0 && Occurs(pools.attached, k) <= 1
    ensures var after := FilterAll(naming, rds, pools);
      && Waiting(naming, after.pools.declared, k) == 0
      && Occurs(after.pools.attached, k) == if Total(naming, rds, k) >= 1 then 0 else Occurs(pools.attached, k)
    decreases |rds|
  {
    if rds != [] {
      var n := |rds| - 1;
      FilterTakes(naming, rds[..n], pools, k, declared, attached);
      assert rds == rds[..n] + [rds[n]];
      TotalConcat(naming, rds[..n], [rds[n]], k);
      TotalOne(naming, rds[n], k);
      if rds[n].vlans.Some? {
        ListTakes(naming, rds[n].vlans.value, FilterAll(naming, rds[..n], pools).pools, k, declared, attached);
      }
    }
  }

  // ---------------------------------------------------------------- exact placement

  /** Declared and attached VLANs are different VLANs. */
  lemma DeclaredNotAttached(naming: Naming, declared: seq<string>, current: seq<RouteDomain>, k: string)
    requires Lawful(naming, declared, Listed(current)) && Declares(naming, declared, k)
    ensures Occurs(Attached(naming, current, declared), k) == 0
  {
    AttachedFacts(naming, current, declared, k);
    OccursMember(Attached(naming, current, declared), k);
  }

  lemma PoolsShrink(smaller: seq<Attachment>, larger: seq<Attachment>, k: string)
    requires (forall x <- smaller :: x in larger) && Occurs(larger, k) == 0
    ensures Occurs(smaller, k) == 0
  {
    OccursMember(smaller, k);
    OccursMember(larger, k);
  }

  /** Every declared VLAN ends up in exactly one place. */
  lemma DeclaredOnce(naming: Naming, rds: seq<RouteDomain>, declared: seq<string>, current: seq<RouteDomain>, k: string)
    requires Lawful(naming, declared, Listed(current)) && NoDuplicates(declared) && HasDefault(rds)
    requires Declares(naming, declared, k)
    ensures Total(naming, Fixed(naming, rds, declared, current), k) == 1
  {
    var start := Start(naming, declared, current);
    var filtered := FilterAll(naming, rds, start);
    AfterFilter(naming, rds, declared, current, k);
    FixedTotal(naming, rds, declared, current, k);
    DeclaredNotAttached(naming, declared, current, k);
    WaitingOnce(naming, declared, declared, Listed(current), k);
    PoolsShrink(filtered.pools.attached, start.attached, k);
    SurvivingBound(rds, filtered.pools.attached, k);
  }

  /** An undeclared attached VLAN stays exactly if it is listed somewhere or its old route domain id survives. */
  lemma AttachmentPlacement(naming: Naming, rds: seq<RouteDomain>, declared: seq<string>, current: seq<RouteDomain>,
                            a: Attachment)
    requires Lawful(naming, declared, Listed(current)) && NoDuplicates(declared)
    requires a in Attached(naming, current, declared)
    ensures Total(naming, Fixed(naming, rds, declared, current), a.vlan)
      == One(Total(naming, rds, a.vlan) >= 1 || HasId(rds, a.id))
  {
    var k := a.vlan;
    var start := Start(naming, declared, current);
    var filtered := FilterAll(naming, rds, start);
    AfterFilter(naming, rds, declared, current, k);
    FixedTotal(naming, rds, declared, current, k);
    WaitingOnce(naming, declared, declared, Listed(current), k);
    OccursMember(start.attached, k);
    if Declares(naming, declared, k) {
      DeclaredNotAttached(naming, declared, current, k);
    }
    FilterTakes(naming, rds, start, k, declared, Listed(current));
    forall x <- filtered.pools.attached | x.vlan == k ensures x == a {
      OccursUnique(start.attached, x, a);
    }
    SurvivingExact(rds, filtered.pools.attached, a);
  }

  /** An entry that is neither declared nor attached occurs nowhere. */
  lemma NeitherPlaced(naming: Naming, rds: seq<RouteDomain>, declared: seq<string>, current: seq<RouteDomain>,
                      k: string)
    requires Lawful(naming, declared, Listed(current)) && NoDuplicates(declared)
    requires !Declares(naming, declared, k) && !HasKey(Attached(naming, current, declared), k)
    ensures Total(naming, Fixed(naming, rds, declared, current), k) == 0
  {
    var start := Start(naming, declared, current);
    var filtered := FilterAll(naming, rds, start);
    AfterFilter(naming, rds, declared, current, k);
    FixedTotal(naming, rds, declared, current, k);
    WaitingOnce(naming, declared, declared, Listed(current), k);
    OccursHasKey(start.attached, k);
    PoolsShrink(filtered.pools.attached, start.attached, k);
    SurvivingBound(rds, filtered.pools.attached, k);
  }

  // ---------------------------------------------------------------- where a declared VLAN goes

  /** The list names the declared VLAN `v`, qualified or not. */
  predicate Mentions(naming: Naming, vlans: seq<string>, v: string)
  {
    exists e <- vlans :: naming.tag(e).Plain? && naming.tag(e).name == Some(v)
  }

  predicate ListsVlan(naming: Naming, rd: RouteDomain, v: string)
  {
    rd.vlans.Some? && Mentions(naming, rd.vlans.value, v)
  }

  lemma {:induction false} ListLeaves(naming: Naming, vlans: seq<string>, pools: Pools, v: string)
    requires v in pools.declared && !Mentions(naming, vlans, v)
    ensures v in FilterList(naming, vlans, pools).pools.declared
    decreases |vlans|
  {
    if vlans != [] {
      var n := |vlans| - 1;
      assert vlans[n] in vlans;
      ListLeaves(naming, vlans[..n], pools, v);
      var before := FilterList(naming, vlans[..n], pools);
      var tag := naming.tag(vlans[n]);
      if tag.Plain? && tag.name.Some? { RemoveMembers(before.pools.declared, tag.name.value); }
    }
  }

  lemma {:induction false} FilterLeaves(naming: Naming, rds: seq<RouteDomain>, pools: Pools, v: string)
    requires v in pools.declared && forall rd <- rds :: !ListsVlan(naming, rd, v)
    ensures v in FilterAll(naming, rds, pools).pools.declared
    decreases |rds|
  {
    if rds != [] {
      var n := |rds| - 1;
      assert rds[n] in rds;
      FilterLeaves(naming, rds[..n], pools, v);
      if rds[n].vlans.Some? {
        ListLeaves(naming, rds[n].vlans.value, FilterAll(naming, rds[..n], pools).pools, v);
      }
    }
  }

  lemma {:induction false} ListKeeps(naming: Naming, vlans: seq<string>, pools: Pools, v: string,
                                     declared: seq<string>, attached: set<string>)
    requires Lawful(naming, declared, attached) && v in pools.declared && Mentions(naming, vlans, v)
    ensures Count(naming, FilterList(naming, vlans, pools).kept, naming.full(v)) >= 1
    decreases |vlans|
  {
    var n := |vlans| - 1;
    var before := FilterList(naming, vlans[..n], pools);
    assert vlans == vlans[..n] + [vlans[n]];
    if Mentions(naming, vlans[..n], v) {
      ListKeeps(naming, vlans[..n], pools, v, declared, attached);
      EntryGrows(naming, vlans[n], before, naming.full(v));
    } else {
      ListLeaves(naming, vlans[..n], pools, v);
      CountConcat(naming, before.kept, [vlans[n]], naming.full(v));
      CountOne(naming, vlans[n], naming.full(v));
    }
  }

  lemma EntryGrows(naming: Naming, e: string, before: Filtered<string>, k: string)
    ensures Count(naming, FilterEntry(naming, e, before).kept, k) >= Count(naming, before.kept, k)
  {
    CountConcat(naming, before.kept, [e], k);
  }

  /** A route domain keeps the VLANs it was left with: later steps only add to its list. */
  lemma {:induction false} AddToDefaultAt(naming: Naming, rds: seq<RouteDomain>, vlans: seq<string>, i: nat, k: string)
    requires i < |rds|
    ensures |AddToDefault(rds, vlans)| == |rds|
    ensures CountIn(naming, AddToDefault(rds, vlans)[i], k) >= CountIn(naming, rds[i], k)
  {
    if vlans != [] {
      if rds[0].name == DEFAULT {
        PushCount(naming, rds[0], vlans, k);
        AddToDefaultSame(rds, vlans);
      } else {
        AddToDefaultSame(rds[1..], vlans);
        if i > 0 {
          AddToDefaultAt(naming, rds[1..], vlans, i - 1, k);
        }
      }
    }
  }

  lemma {:induction false} PushByIdAt(naming: Naming, rds: seq<RouteDomain>, a: Attachment, i: nat, k: string)
    requires i < |rds|
    ensures |PushById(rds, a)| == |rds|
    ensures CountIn(naming, PushById(rds, a)[i], k) >= CountIn(naming, rds[i], k)
    decreases |rds|
  {
    PushByIdSame(rds, a);
    var n := |rds| - 1;
    if rds[n].id == a.id {
      PushCount(naming, rds[n], [a.vlan], k);
    } else if i < n {
      PushByIdAt(naming, rds[..n], a, i, k);
    }
  }

  lemma {:induction false} GiveBackAt(naming: Naming, rds: seq<RouteDomain>, attached: seq<Attachment>, i: nat,
                                      k: string)
    requires i < |rds|
    ensures |GiveBack(rds, attached)| == |rds|
    ensures CountIn(naming, GiveBack(rds, attached)[i], k) >= CountIn(naming, rds[i], k)
    decreases |attached|
  {
    GiveBackSame(rds, attached);
    if attached != [] {
      var n := |attached| - 1;
      GiveBackSame(rds, attached[..n]);
      GiveBackAt(naming, rds, attached[..n], i, k);
      PushByIdAt(naming, GiveBack(rds, attached[..n]), attached[n], i, k);
    }
  }

  lemma {:induction false} FinishAt(naming: Naming, rds: seq<RouteDomain>, i: nat)
    requires i < |rds|
    ensures |FinishAll(naming, rds)| == |rds| && FinishAll(naming, rds)[i] == Finish(naming, rds[i])
  {
    if |rds| > 1 {
      FinishAt(naming, rds[1..], if i > 0 then i - 1 else 0);
    }
  }

  lemma {:induction false} FilterAt(naming: Naming, rds: seq<RouteDomain>, pools: Pools, i: nat)
    requires i < |rds|
    ensures |FilterAll(naming, rds, pools).kept| == |rds|
    ensures FilterAll(naming, rds, pools).kept[i] ==
      if rds[i].vlans.None? then rds[i]
      else rds[i].(vlans := Some(FilterList(naming, rds[i].vlans.value, FilterAll(naming, rds[..i], pools).pools).kept))
    decreases |rds|
  {
    FilterAllSame(naming, rds, pools);
    FilterAllSame(naming, rds[..|rds| - 1], pools);
    if i < |rds| - 1 {
      FilterAt(naming, rds[..|rds| - 1], pools, i);
      assert rds[..|rds| - 1][..i] == rds[..i];
    }
  }

  lemma {:induction false} TotalAt(naming: Naming, rds: seq<RouteDomain>, i: nat, k: string)
    requires i < |rds|
    ensures CountIn(naming, rds[i], k) <= Total(naming, rds, k)
  {
    if i > 0 {
      TotalAt(naming, rds[1..], i - 1, k);
    }
  }

  lemma FixedAt(naming: Naming, rds: seq<RouteDomain>, declared: seq<string>, current: seq<RouteDomain>, i: nat,
                k: string)
    requires Lawful(naming, declared, Listed(current)) && i < |rds|
    ensures |Fixed(naming, rds, declared, current)| == |rds|
    ensures var filtered := FilterAll(naming, rds, Start(naming, declared, current));
      |AddToDefault(filtered.kept, filtered.pools.declared)| == |rds|
      && CountIn(naming, Fixed(naming, rds, declared, current)[i], k)
         >= CountIn(naming, AddToDefault(filtered.kept, filtered.pools.declared)[i], k)
  {
    var filtered := FilterAll(naming, rds, Start(naming, declared, current));
    var added := AddToDefault(filtered.kept, filtered.pools.declared);
    var given := GiveBack(added, filtered.pools.attached);
    AfterFilter(naming, rds, declared, current, k);
    FilterAllSame(naming, rds, Start(naming, declared, current));
    AddToDefaultSame(filtered.kept, filtered.pools.declared);
    CountDeclared(naming, filtered.pools.declared, k, declared, Listed(current));
    AddToDefaultEverywhere(IsStable(naming), filtered.kept, filtered.pools.declared);
    GiveBackEverywhere(IsStable(naming), added, filtered.pools.attached);
    GiveBackAt(naming, added, filtered.pools.attached, i, k);
    FinishAt(naming, given, i);
    assert given[i] in given;
    if given[i].vlans.Some? {
      FinishCount(naming, given[i].vlans.value, k);
    }
  }

  /** A declared VLAN goes to the first route domain, in iteration order, that lists it. */
  lemma GoesToFirstLister(naming: Naming, rds: seq<RouteDomain>, declared: seq<string>, current: seq<RouteDomain>,
                          v: string, i: nat)
    requires Lawful(naming, declared, Listed(current)) && NoDuplicates(declared) && HasDefault(rds)
    requires v in declared && i < |rds| && ListsVlan(naming, rds[i], v)
    requires forall j | 0 <= j < i :: !ListsVlan(naming, rds[j], v)
    ensures |Fixed(naming, rds, declared, current)| == |rds|
    ensures CountIn(naming, Fixed(naming, rds, declared, current)[i], naming.full(v)) == 1
  {
    var start := Start(naming, declared, current);
    var filtered := FilterAll(naming, rds, start);
    var fixedDomains := Fixed(naming, rds, declared, current);
    FilterAt(naming, rds, start, i);
    FilterLeaves(naming, rds[..i], start, v);
    ListKeeps(naming, rds[i].vlans.value, FilterAll(naming, rds[..i], start).pools, v, declared, Listed(current));
    AddToDefaultAt(naming, filtered.kept, filtered.pools.declared, i, naming.full(v));
    FixedAt(naming, rds, declared, current, i, naming.full(v));
    DeclaredOnce(naming, rds, declared, current, naming.full(v));
    TotalAt(naming, fixedDomains, i, naming.full(v));
  }

  lemma {:induction false} DefaultTakes(naming: Naming, rds: seq<RouteDomain>, vlans: seq<string>, i: nat, k: string)
    requires i < |rds| && rds[i].name == DEFAULT && forall j | 0 <= j < i :: rds[j].name != DEFAULT
    ensures |AddToDefault(rds, vlans)| == |rds|
    ensures CountIn(naming, AddToDefault(rds, vlans)[i], k) >= Count(naming, vlans, k)
  {
    AddToDefaultSame(rds, vlans);
    if vlans != [] {
      if i == 0 {
        PushCount(naming, rds[0], vlans, k);
      } else {
        DefaultTakes(naming, rds[1..], vlans, i - 1, k);
      }
    }
  }

  /** A declared VLAN that no route domain lists goes to route domain 0. */
  lemma GoesToDefault(naming: Naming, rds: seq<RouteDomain>, declared: seq<string>, current: seq<RouteDomain>,
                      v: string, i: nat)
    requires Lawful(naming, declared, Listed(current)) && NoDuplicates(declared)
    requires i < |rds| && rds[i].name == DEFAULT && forall j | 0 <= j < i :: rds[j].name != DEFAULT
    requires v in declared && forall rd <- rds :: !ListsVlan(naming, rd, v)
    ensures |Fixed(naming, rds, declared, current)| == |rds|
    ensures CountIn(naming, Fixed(naming, rds, declared, current)[i], naming.full(v)) == 1
  {
    var k := naming.full(v);
    var start := Start(naming, declared, current);
    var filtered := FilterAll(naming, rds, start);
    assert rds[i] in rds;
    FilterLeaves(naming, rds, start, v);
    FilterAllSame(naming, rds, start);
    AfterFilter(naming, rds, declared, current, k);
    CountDeclared(naming, filtered.pools.declared, k, declared, Listed(current));
    WaitingZero(naming, filtered.pools.declared, v);
    DefaultTakes(naming, filtered.kept, filtered.pools.declared, i, k);
    FixedAt(naming, rds, declared, current, i, k);
    DeclaredOnce(naming, rds, declared, current, k);
    TotalAt(naming, Fixed(naming, rds, declared, current), i, k);
  }
}
