/** How often a VLAN occurs once the declared and the attached ones have been handed out, as an exact count. */
module VlanPlacement {
  import opened Prelude
  import opened VlanNames
  import opened RouteDomains
  import opened VlanConservation

  // ---------------------------------------------------------------- handing out and finishing

  predicate HasDefault(rds: seq<RouteDomain>)
  {
    exists rd <- rds :: rd.name == DEFAULT
  }

  predicate HasId(rds: seq<RouteDomain>, id: string)
  {
    exists rd <- rds :: rd.id == id
  }

  /** Same route domains, possibly with other lists. */
  predicate SameDomains(a: seq<RouteDomain>, b: seq<RouteDomain>)
  {
    |a| == |b| && forall i | 0 <= i < |a| :: a[i].name == b[i].name && a[i].id == b[i].id
  }

  lemma SameDomainsHas(a: seq<RouteDomain>, b: seq<RouteDomain>, id: string)
    requires SameDomains(a, b)
    ensures HasDefault(a) <==> HasDefault(b)
    ensures HasId(a, id) <==> HasId(b, id)
  {
    forall i | 0 <= i < |a| ensures a[i] in a && b[i] in b { }
  }

  lemma PushCount(naming: Naming, rd: RouteDomain, vlans: seq<string>, k: string)
    ensures CountIn(naming, Push(rd, vlans), k) == CountIn(naming, rd, k) + Count(naming, vlans, k)
  {
    CountConcat(naming, if rd.vlans.Some? then rd.vlans.value else [], vlans, k);
  }

  lemma {:induction false} AddToDefaultTotal(naming: Naming, rds: seq<RouteDomain>, vlans: seq<string>, k: string)
    ensures Total(naming, AddToDefault(rds, vlans), k)
      == Total(naming, rds, k) + (if HasDefault(rds) then Count(naming, vlans, k) else 0)
  {
    if rds != [] && vlans != [] {
      if rds[0].name == DEFAULT {
        PushCount(naming, rds[0], vlans, k);
        assert ([Push(rds[0], vlans)] + rds[1..])[1..] == rds[1..];
      } else {
        AddToDefaultTotal(naming, rds[1..], vlans, k);
        assert ([rds[0]] + AddToDefault(rds[1..], vlans))[1..] == AddToDefault(rds[1..], vlans);
        assert HasDefault(rds) <==> HasDefault(rds[1..]) by {
          assert forall rd :: rd in rds <==> rd == rds[0] || rd in rds[1..];
        }
      }
    }
  }

  lemma {:induction false} PushByIdTotal(naming: Naming, rds: seq<RouteDomain>, a: Attachment, k: string)
    requires naming.tag(a.vlan).Plain? && naming.tag(a.vlan).full == a.vlan
    ensures Total(naming, PushById(rds, a), k)
      == Total(naming, rds, k) + (if HasId(rds, a.id) then One(a.vlan == k) else 0)
    decreases |rds|
  {
    if rds != [] {
      var n := |rds| - 1;
      assert rds == rds[..n] + [rds[n]];
      TotalConcat(naming, rds[..n], [rds[n]], k);
      TotalOne(naming, rds[n], k);
      if rds[n].id == a.id {
        PushCount(naming, rds[n], [a.vlan], k);
        CountOne(naming, a.vlan, k);
        TotalConcat(naming, rds[..n], [Push(rds[n], [a.vlan])], k);
        TotalOne(naming, Push(rds[n], [a.vlan]), k);
      } else {
        PushByIdTotal(naming, rds[..n], a, k);
        TotalConcat(naming, PushById(rds[..n], a), [rds[n]], k);
        assert HasId(rds, a.id) <==> HasId(rds[..n], a.id) by {
          assert forall rd :: rd in rds <==> rd == rds[n] || rd in rds[..n];
        }
      }
    }
  }

  lemma {:induction false} PushByIdSame(rds: seq<RouteDomain>, a: Attachment)
    ensures SameDomains(PushById(rds, a), rds)
    decreases |rds|
  {
    if rds != [] && rds[|rds| - 1].id != a.id {
      PushByIdSame(rds[..|rds| - 1], a);
    }
  }

  lemma {:induction false} AddToDefaultSame(rds: seq<RouteDomain>, vlans: seq<string>)
    ensures SameDomains(AddToDefault(rds, vlans), rds)
  {
    if rds != [] && vlans != [] && rds[0].name != DEFAULT {
      AddToDefaultSame(rds[1..], vlans);
    }
  }

  lemma {:induction false} GiveBackSame(rds: seq<RouteDomain>, attached: seq<Attachment>)
    ensures SameDomains(GiveBack(rds, attached), rds)
    decreases |attached|
  {
    if attached != [] {
      var n := |attached| - 1;
      GiveBackSame(rds, attached[..n]);
      PushByIdSame(GiveBack(rds, attached[..n]), attached[n]);
    }
  }

  lemma {:induction false} FilterAllSame(naming: Naming, rds: seq<RouteDomain>, pools: Pools)
    ensures SameDomains(FilterAll(naming, rds, pools).kept, rds)
    decreases |rds|
  {
    if rds != [] {
      FilterAllSame(naming, rds[..|rds| - 1], pools);
    }
  }

  /** Waiting attachments of `k` whose route domain still exists. */
  function Surviving(rds: seq<RouteDomain>, attached: seq<Attachment>, k: string): nat
  {
    if attached == [] then 0
    else
      var n := |attached| - 1;
      Surviving(rds, attached[..n], k) + One(attached[n].vlan == k && HasId(rds, attached[n].id))
  }

  lemma {:induction false} GiveBackTotal(naming: Naming, rds: seq<RouteDomain>, attached: seq<Attachment>, k: string)
    requires forall x <- attached :: naming.tag(x.vlan).Plain? && naming.tag(x.vlan).full == x.vlan
    ensures Total(naming, GiveBack(rds, attached), k) == Total(naming, rds, k) + Surviving(rds, attached, k)
    decreases |attached|
  {
    if attached != [] {
      var n := |attached| - 1;
      assert attached[n] in attached;
      GiveBackTotal(naming, rds, attached[..n], k);
      GiveBackSame(rds, attached[..n]);
      SameDomainsHas(GiveBack(rds, attached[..n]), rds, attached[n].id);
      PushByIdTotal(naming, GiveBack(rds, attached[..n]), attached[n], k);
    }
  }

  /** Qualifying an entry keeps what it denotes. */
  predicate Stable(naming: Naming, e: string)
  {
    var q := naming.tag(naming.qualify(e));
    if naming.tag(e).Foreign? then naming.qualify(e) == e
    else q.Plain? && q.full == naming.tag(e).full
  }

  predicate AllStable(naming: Naming, vlans: seq<string>)
  {
    forall e <- vlans :: Stable(naming, e)
  }

  /** Every listed entry has the property. */
  predicate Everywhere(p: string -> bool, rds: seq<RouteDomain>)
  {
    forall rd <- rds :: rd.vlans.Some? ==> forall e <- rd.vlans.value :: p(e)
  }

  function IsStable(naming: Naming): string -> bool { e => Stable(naming, e) }

  predicate StableDomains(naming: Naming, rds: seq<RouteDomain>) { Everywhere(IsStable(naming), rds) }

  lemma {:induction false} InsertCount(naming: Naming, x: string, xs: seq<string>, k: string)
    ensures Count(naming, Insert(x, xs), k) == One(Denotes(naming, x, k)) + Count(naming, xs, k)
  {
    if xs == [] || AtMost(x, xs[0]) {
      assert ([x] + xs)[1..] == xs;
    } else {
      InsertCount(naming, x, xs[1..], k);
      assert ([xs[0]] + Insert(x, xs[1..]))[1..] == Insert(x, xs[1..]);
    }
  }

  lemma {:induction false} FinishCount(naming: Naming, vlans: seq<string>, k: string)
    requires AllStable(naming, vlans)
    ensures Count(naming, Sort(QualifyAll(naming, vlans)), k) == Count(naming, vlans, k)
  {
    if vlans != [] {
      FinishCount(naming, vlans[1..], k);
      var rest := QualifyAll(naming, vlans[1..]);
      assert ([naming.qualify(vlans[0])] + rest)[1..] == rest;
      InsertCount(naming, naming.qualify(vlans[0]), Sort(rest), k);
      assert Stable(naming, vlans[0]);
    }
  }

  lemma {:induction false} FinishTotal(naming: Naming, rds: seq<RouteDomain>, k: string)
    requires StableDomains(naming, rds)
    ensures Total(naming, FinishAll(naming, rds), k) == Total(naming, rds, k)
  {
    if rds != [] {
      assert rds[0] in rds;
      if rds[0].vlans.Some? { FinishCount(naming, rds[0].vlans.value, k); }
      FinishTotal(naming, rds[1..], k);
      assert ([Finish(naming, rds[0])] + FinishAll(naming, rds[1..]))[1..] == FinishAll(naming, rds[1..]);
    }
  }

  // ---------------------------------------------------------------- stability of everything that is kept

  lemma {:induction false} FilterListStable(naming: Naming, vlans: seq<string>, pools: Pools,
                                            declared: seq<string>, attached: set<string>)
    requires Lawful(naming, declared, attached) && PoolsWithin(naming, pools, declared, attached)
    ensures AllStable(naming, FilterList(naming, vlans, pools).kept)
    decreases |vlans|
  {
    if vlans != [] {
      var n := |vlans| - 1;
      var before := FilterList(naming, vlans[..n], pools);
      FilterListStable(naming, vlans[..n], pools, declared, attached);
      FilterListWithin(naming, vlans[..n], pools, declared, attached);
      var tag := naming.tag(vlans[n]);
      if tag.Plain? && HasKey(before.pools.attached, tag.full) {
        var x :| x in before.pools.attached && x.vlan == tag.full;
        assert naming.tag(x.vlan).full == x.vlan;
      }
    }
  }

  lemma {:induction false} FilterAllStable(naming: Naming, rds: seq<RouteDomain>, pools: Pools,
                                           declared: seq<string>, attached: set<string>)
    requires Lawful(naming, declared, attached) && PoolsWithin(naming, pools, declared, attached)
    ensures StableDomains(naming, FilterAll(naming, rds, pools).kept)
    decreases |rds|
  {
    if rds != [] {
      var n := |rds| - 1;
      FilterAllStable(naming, rds[..n], pools, declared, attached);
      FilterAllWithin(naming, rds[..n], pools, declared, attached);
      if rds[n].vlans.Some? {
        FilterListStable(naming, rds[n].vlans.value, FilterAll(naming, rds[..n], pools).pools, declared, attached);
      }
    }
  }

  lemma {:induction false} AddToDefaultEverywhere(p: string -> bool, rds: seq<RouteDomain>, vlans: seq<string>)
    requires Everywhere(p, rds) && forall v <- vlans :: p(v)
    ensures Everywhere(p, AddToDefault(rds, vlans))
  {
    if rds != [] && vlans != [] {
      assert rds[0] in rds;
      if rds[0].name != DEFAULT {
        AddToDefaultEverywhere(p, rds[1..], vlans);
      }
    }
  }

  lemma {:induction false} PushByIdEverywhere(p: string -> bool, rds: seq<RouteDomain>, a: Attachment)
    requires Everywhere(p, rds) && p(a.vlan)
    ensures Everywhere(p, PushById(rds, a))
    decreases |rds|
  {
    if rds != [] {
      assert rds[|rds| - 1] in rds;
      if rds[|rds| - 1].id != a.id {
        PushByIdEverywhere(p, rds[..|rds| - 1], a);
      }
    }
  }

  lemma {:induction false} GiveBackEverywhere(p: string -> bool, rds: seq<RouteDomain>, attached: seq<Attachment>)
    requires Everywhere(p, rds) && forall x <- attached :: p(x.vlan)
    ensures Everywhere(p, GiveBack(rds, attached))
    decreases |attached|
  {
    if attached != [] {
      var n := |attached| - 1;
      assert attached[n] in attached;
      GiveBackEverywhere(p, rds, attached[..n]);
      PushByIdEverywhere(p, GiveBack(rds, attached[..n]), attached[n]);
    }
  }

  // ---------------------------------------------------------------- the exact count

  /** Declared names count themselves. */
  lemma {:induction false} CountDeclared(naming: Naming, vlans: seq<string>, k: string,
                                         declared: seq<string>, attached: set<string>)
    requires Lawful(naming, declared, attached) && forall v <- vlans :: v in declared
    ensures Count(naming, vlans, k) == Waiting(naming, vlans, k) && AllStable(naming, vlans)
  {
    if vlans != [] {
      CountDeclared(naming, vlans[1..], k, declared, attached);
    }
  }

  function Start(naming: Naming, declared: seq<string>, current: seq<RouteDomain>): Pools
  {
    Pools(declared, Attached(naming, current, declared))
  }

  /** Everything that is known about the intermediate lists. */
  lemma AfterFilter(naming: Naming, rds: seq<RouteDomain>, declared: seq<string>, current: seq<RouteDomain>, k: string)
    requires Lawful(naming, declared, Listed(current))
    ensures var start := Start(naming, declared, current);
      var filtered := FilterAll(naming, rds, start);
      && Occurs(start.attached, k) <= 1
      && Total(naming, filtered.kept, k) + Pooled(naming, filtered.pools, k) == Pooled(naming, start, k)
      && PoolsWithin(naming, filtered.pools, declared, Listed(current))
      && (forall x <- filtered.pools.attached :: x in start.attached)
      && StableDomains(naming, filtered.kept)
      && (forall x <- filtered.pools.attached :: Stable(naming, x.vlan) && naming.tag(x.vlan).full == x.vlan)
  {
    var start := Start(naming, declared, current);
    AttachedFacts(naming, current, declared, k);
    FilterConserves(naming, rds, start, k, declared, Listed(current));
    FilterAllWithin(naming, rds, start, declared, Listed(current));
    FilterAllStable(naming, rds, start, declared, Listed(current));
  }

  /** How often `k` occurs at the end: as often as it was kept, plus once per VLAN handed out. */
  lemma FixedTotal(naming: Naming, rds: seq<RouteDomain>, declared: seq<string>, current: seq<RouteDomain>, k: string)
    requires Lawful(naming, declared, Listed(current))
    ensures var filtered := FilterAll(naming, rds, Start(naming, declared, current));
      Total(naming, Fixed(naming, rds, declared, current), k)
      == Total(naming, filtered.kept, k)
         + (if HasDefault(rds) then Waiting(naming, filtered.pools.declared, k) else 0)
         + Surviving(rds, filtered.pools.attached, k)
  {
    var filtered := FilterAll(naming, rds, Start(naming, declared, current));
    AfterFilter(naming, rds, declared, current, k);
    var added := AddToDefault(filtered.kept, filtered.pools.declared);
    FilterAllSame(naming, rds, Start(naming, declared, current));
    AddToDefaultSame(filtered.kept, filtered.pools.declared);
    SameDomainsHas(filtered.kept, rds, "");
    CountDeclared(naming, filtered.pools.declared, k, declared, Listed(current));
    AddToDefaultTotal(naming, filtered.kept, filtered.pools.declared, k);
    AddToDefaultEverywhere(IsStable(naming), filtered.kept, filtered.pools.declared);
    GiveBackTotal(naming, added, filtered.pools.attached, k);
    GiveBackEverywhere(IsStable(naming), added, filtered.pools.attached);
    SurvivingSame(added, rds, filtered.pools.attached, k);
    FinishTotal(naming, GiveBack(added, filtered.pools.attached), k);
  }

  lemma {:induction false} SurvivingSame(a: seq<RouteDomain>, b: seq<RouteDomain>, attached: seq<Attachment>, k: string)
    requires SameDomains(a, b)
    ensures Surviving(a, attached, k) == Surviving(b, attached, k)
    decreases |attached|
  {
    if attached != [] {
      var n := |attached| - 1;
      SurvivingSame(a, b, attached[..n], k);
      SameDomainsHas(a, b, attached[n].id);
    }
  }
}
