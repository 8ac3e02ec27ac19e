/** The shape of the result: foreign entries untouched, lists qualified and sorted, and a second run changes nothing. */
module VlanIdempotence {
  import opened Prelude
  import opened VlanNames
  import opened RouteDomains
  import opened VlanConservation
  import opened VlanPlacement
  import opened VlanTheorems

  // ---------------------------------------------------------------- foreign entries

  /** The entries of other partitions and of folders, in order. */
  function ForeignPart(naming: Naming, vlans: seq<string>): seq<string>
  {
    if vlans == [] then []
    else (if naming.tag(vlans[0]).Foreign? then [vlans[0]] else []) + ForeignPart(naming, vlans[1..])
  }

  function ForeignIn(naming: Naming, rd: RouteDomain): seq<string> { ForeignPart(naming, VlansOf(rd)) }

  lemma {:induction false} ForeignConcat(naming: Naming, a: seq<string>, b: seq<string>)
    ensures ForeignPart(naming, a + b) == ForeignPart(naming, a) + ForeignPart(naming, b)
  {
    if a == [] {
      assert a + b == b;
    } else {
      assert (a + b)[1..] == a[1..] + b;
      ForeignConcat(naming, a[1..], b);
    }
  }

  lemma {:induction false} NoForeign(naming: Naming, vlans: seq<string>)
    requires forall v <- vlans :: naming.tag(v).Plain?
    ensures ForeignPart(naming, vlans) == []
  {
    if vlans != [] {
      NoForeign(naming, vlans[1..]);
    }
  }

  lemma {:induction false} FilterListForeign(naming: Naming, vlans: seq<string>, pools: Pools)
    ensures ForeignPart(naming, FilterList(naming, vlans, pools).kept) == ForeignPart(naming, vlans)
    decreases |vlans|
  {
    if vlans != [] {
      var n := |vlans| - 1;
      FilterListForeign(naming, vlans[..n], pools);
      ForeignConcat(naming, FilterList(naming, vlans[..n], pools).kept, [vlans[n]]);
      assert vlans == vlans[..n] + [vlans[n]];
      ForeignConcat(naming, vlans[..n], [vlans[n]]);
    }
  }

  lemma PushForeign(naming: Naming, rd: RouteDomain, vlans: seq<string>)
    requires forall v <- vlans :: naming.tag(v).Plain?
    ensures ForeignIn(naming, Push(rd, vlans)) == ForeignIn(naming, rd)
  {
    NoForeign(naming, vlans);
    ForeignConcat(naming, VlansOf(rd), vlans);
  }

  lemma {:induction false} AddToDefaultForeign(naming: Naming, rds: seq<RouteDomain>, vlans: seq<string>, i: nat)
    requires i < |rds| && forall v <- vlans :: naming.tag(v).Plain?
    ensures |AddToDefault(rds, vlans)| == |rds|
    ensures ForeignIn(naming, AddToDefault(rds, vlans)[i]) == ForeignIn(naming, rds[i])
  {
    AddToDefaultSame(rds, vlans);
    hide ForeignIn, SameDomains;
    if vlans != [] {
      if rds[0].name == DEFAULT {
        PushForeign(naming, rds[0], vlans);
      } else if i > 0 {
        AddToDefaultForeign(naming, rds[1..], vlans, i - 1);
      }
    }
  }

  lemma {:induction false} PushByIdForeign(naming: Naming, rds: seq<RouteDomain>, a: Attachment, i: nat)
    requires i < |rds| && naming.tag(a.vlan).Plain?
    ensures |PushById(rds, a)| == |rds|
    ensures ForeignIn(naming, PushById(rds, a)[i]) == ForeignIn(naming, rds[i])
    decreases |rds|
  {
    PushByIdSame(rds, a);
    hide ForeignIn, SameDomains;
    var n := |rds| - 1;
    if rds[n].id == a.id {
      PushForeign(naming, rds[n], [a.vlan]);
    } else if i < n {
      PushByIdForeign(naming, rds[..n], a, i);
    }
  }

  lemma {:induction false} GiveBackForeign(naming: Naming, rds: seq<RouteDomain>, attached: seq<Attachment>, i: nat)
    requires i < |rds| && forall x <- attached :: naming.tag(x.vlan).Plain?
    ensures |GiveBack(rds, attached)| == |rds|
    ensures ForeignIn(naming, GiveBack(rds, attached)[i]) == ForeignIn(naming, rds[i])
    decreases |attached|
  {
    GiveBackSame(rds, attached);
    if attached != [] {
      var n := |attached| - 1;
      assert attached[n] in attached;
      GiveBackSame(rds, attached[..n]);
      GiveBackForeign(naming, rds, attached[..n], i);
      PushByIdForeign(naming, GiveBack(rds, attached[..n]), attached[n], i);
    }
  }

  lemma {:induction false} InsertForeign(naming: Naming, x: string, xs: seq<string>)
    ensures multiset(ForeignPart(naming, Insert(x, xs)))
      == multiset(ForeignPart(naming, xs)) + multiset(if naming.tag(x).Foreign? then [x] else [])
  {
    if xs == [] || AtMost(x, xs[0]) {
      assert ([x] + xs)[1..] == xs;
    } else {
      InsertForeign(naming, x, xs[1..]);
      assert ([xs[0]] + Insert(x, xs[1..]))[1..] == Insert(x, xs[1..]);
    }
  }

  lemma {:induction false} FinishForeign(naming: Naming, vlans: seq<string>)
    requires AllStable(naming, vlans)
    ensures multiset(ForeignPart(naming, Sort(QualifyAll(naming, vlans)))) == multiset(ForeignPart(naming, vlans))
  {
    if vlans != [] {
      FinishForeign(naming, vlans[1..]);
      var rest := QualifyAll(naming, vlans[1..]);
      assert ([naming.qualify(vlans[0])] + rest)[1..] == rest;
      assert Stable(naming, vlans[0]);
      InsertForeign(naming, naming.qualify(vlans[0]), Sort(rest));
    }
  }

  /** Entries of other partitions or of folders stay where they are, as often as they were there. */
  lemma ForeignKept(naming: Naming, rds: seq<RouteDomain>, declared: seq<string>, current: seq<RouteDomain>, i: nat)
    requires Lawful(naming, declared, Listed(current)) && i < |rds|
    ensures |Fixed(naming, rds, declared, current)| == |rds|
    ensures multiset(ForeignIn(naming, Fixed(naming, rds, declared, current)[i])) == multiset(ForeignIn(naming, rds[i]))
  {
    var start := Start(naming, declared, current);
    var filtered := FilterAll(naming, rds, start);
    var added := AddToDefault(filtered.kept, filtered.pools.declared);
    var given := GiveBack(added, filtered.pools.attached);
    AfterFilter(naming, rds, declared, current, "");
    FilterAt(naming, rds, start, i);
    if rds[i].vlans.Some? {
      FilterListForeign(naming, rds[i].vlans.value, FilterAll(naming, rds[..i], start).pools);
    }
    AddToDefaultForeign(naming, filtered.kept, filtered.pools.declared, i);
    GiveBackForeign(naming, added, filtered.pools.attached, i);
    FinishAt(naming, given, i);
    CountDeclared(naming, filtered.pools.declared, "", declared, Listed(current));
    AddToDefaultEverywhere(IsStable(naming), filtered.kept, filtered.pools.declared);
    GiveBackEverywhere(IsStable(naming), added, filtered.pools.attached);
    assert given[i] in given;
    if given[i].vlans.Some? {
      FinishForeign(naming, given[i].vlans.value);
    }
  }

  // ---------------------------------------------------------------- shape

  predicate Tidy(naming: Naming, rd: RouteDomain)
  {
    rd.vlans.Some? ==> Ascending(rd.vlans.value) && forall e <- rd.vlans.value :: naming.qualify(e) == e
  }

  lemma {:induction false} QualifyAllTidy(naming: Naming, vlans: seq<string>)
    requires forall e :: naming.qualify(naming.qualify(e)) == naming.qualify(e)
    ensures forall e <- QualifyAll(naming, vlans) :: naming.qualify(e) == e
  {
    if vlans != [] {
      QualifyAllTidy(naming, vlans[1..]);
    }
  }

  lemma SortMembers(xs: seq<string>)
    ensures forall x <- Sort(xs) :: x in xs
  {
    SortAscending(xs);
    forall x <- Sort(xs) ensures x in xs {
      assert x in multiset(Sort(xs));
    }
  }

  /** The fix keeps names and ids and returns every list fully qualified and sorted. */
  lemma Tidied(naming: Naming, rds: seq<RouteDomain>, declared: seq<string>, current: seq<RouteDomain>)
    requires Lawful(naming, declared, Listed(current))
    ensures SameDomains(Fixed(naming, rds, declared, current), rds)
    ensures forall rd <- Fixed(naming, rds, declared, current) :: Tidy(naming, rd)
  {
    var filtered := FilterAll(naming, rds, Start(naming, declared, current));
    var added := AddToDefault(filtered.kept, filtered.pools.declared);
    FilterAllSame(naming, rds, Start(naming, declared, current));
    AddToDefaultSame(filtered.kept, filtered.pools.declared);
    GiveBackSame(added, filtered.pools.attached);
    FinishTidy(naming, GiveBack(added, filtered.pools.attached));
  }

  lemma {:induction false} FinishTidy(naming: Naming, rds: seq<RouteDomain>)
    requires forall e :: naming.qualify(naming.qualify(e)) == naming.qualify(e)
    ensures SameDomains(FinishAll(naming, rds), rds)
    ensures forall rd <- FinishAll(naming, rds) :: Tidy(naming, rd)
  {
    if rds != [] {
      DomainTidy(naming, rds[0]);
      hide Tidy, Finish;
      FinishTidy(naming, rds[1..]);
    }
  }

  lemma DomainTidy(naming: Naming, rd: RouteDomain)
    requires forall e :: naming.qualify(naming.qualify(e)) == naming.qualify(e)
    ensures Tidy(naming, Finish(naming, rd))
    ensures Finish(naming, rd).name == rd.name && Finish(naming, rd).id == rd.id
  {
    if rd.vlans.Some? {
      var qualified := QualifyAll(naming, rd.vlans.value);
      QualifyAllTidy(naming, rd.vlans.value);
      SortMembers(qualified);
      SortAscending(qualified);
    }
  }

  // ---------------------------------------------------------------- idempotence

  /** The entry does not denote a declared VLAN without naming it, as "/Common" does when a VLAN is "undefined". */
  predicate Named(naming: Naming, declared: seq<string>, e: string)
  {
    naming.tag(e).Plain? && naming.tag(e).name.None? ==> !Declares(naming, declared, naming.tag(e).full)
  }

  function IsNamed(naming: Naming, declared: seq<string>): string -> bool { e => Named(naming, declared, e) }

  /** A nameless entry can only be kept as an attached VLAN, and no attached VLAN is declared. */
  lemma {:induction false} FilterListNamed(naming: Naming, vlans: seq<string>, pools: Pools, declared: seq<string>,
                                           attached: set<string>)
    requires PoolsWithin(naming, pools, declared, attached)
    requires forall x <- pools.attached :: !Declares(naming, declared, x.vlan)
    ensures forall e <- FilterList(naming, vlans, pools).kept :: Named(naming, declared, e)
    decreases |vlans|
  {
    if vlans != [] {
      FilterListNamed(naming, vlans[..|vlans| - 1], pools, declared, attached);
      FilterListWithin(naming, vlans[..|vlans| - 1], pools, declared, attached);
    }
  }

  lemma {:induction false} FilterAllNamed(naming: Naming, rds: seq<RouteDomain>, pools: Pools, declared: seq<string>,
                                          attached: set<string>)
    requires PoolsWithin(naming, pools, declared, attached)
    requires forall x <- pools.attached :: !Declares(naming, declared, x.vlan)
    ensures Everywhere(IsNamed(naming, declared), FilterAll(naming, rds, pools).kept)
    decreases |rds|
  {
    if rds != [] {
      var n := |rds| - 1;
      FilterAllNamed(naming, rds[..n], pools, declared, attached);
      FilterAllWithin(naming, rds[..n], pools, declared, attached);
      if rds[n].vlans.Some? {
        FilterListNamed(naming, rds[n].vlans.value, FilterAll(naming, rds[..n], pools).pools, declared, attached);
      }
    }
  }

  /** An entry that is its own full name is not a nameless one of a declared VLAN. */
  lemma FullIsNamed(naming: Naming, declared: seq<string>, attached: set<string>, e: string)
    requires Lawful(naming, declared, attached) && naming.tag(e).Plain? && naming.tag(e).full == e
    ensures Named(naming, declared, e)
  {
  }

  lemma QualifiedNamed(naming: Naming, declared: seq<string>, attached: set<string>, e: string)
    requires Lawful(naming, declared, attached) && Stable(naming, e) && Named(naming, declared, e)
    ensures Named(naming, declared, naming.qualify(e))
  {
    if naming.qualify(e) != e {
      FullIsNamed(naming, declared, attached, naming.qualify(e));
    }
  }

  lemma {:induction false} FinishNamed(naming: Naming, rds: seq<RouteDomain>, declared: seq<string>,
                                       attached: set<string>)
    requires Lawful(naming, declared, attached) && StableDomains(naming, rds)
    requires Everywhere(IsNamed(naming, declared), rds)
    ensures Everywhere(IsNamed(naming, declared), FinishAll(naming, rds))
  {
    if rds != [] {
      assert rds[0] in rds;
      if rds[0].vlans.Some? {
        SortMembers(QualifyAll(naming, rds[0].vlans.value));
        QualifyNamed(naming, rds[0].vlans.value, declared, attached);
      }
      FinishNamed(naming, rds[1..], declared, attached);
    }
  }

  lemma {:induction false} QualifyNamed(naming: Naming, vlans: seq<string>, declared: seq<string>,
                                        attached: set<string>)
    requires Lawful(naming, declared, attached)
    requires forall e <- vlans :: Stable(naming, e) && Named(naming, declared, e)
    ensures forall e <- QualifyAll(naming, vlans) :: Named(naming, declared, e)
  {
    if vlans != [] {
      QualifiedNamed(naming, declared, attached, vlans[0]);
      QualifyNamed(naming, vlans[1..], declared, attached);
    }
  }

  /** After one run no entry denotes a declared VLAN without naming it. */
  lemma FixedNamed(naming: Naming, rds: seq<RouteDomain>, declared: seq<string>, current: seq<RouteDomain>)
    requires Lawful(naming, declared, Listed(current))
    ensures Everywhere(IsNamed(naming, declared), Fixed(naming, rds, declared, current))
  {
    var start := Start(naming, declared, current);
    var filtered := FilterAll(naming, rds, start);
    var added := AddToDefault(filtered.kept, filtered.pools.declared);
    AttachedFacts(naming, current, declared, "");
    AfterFilter(naming, rds, declared, current, "");
    FilterAllNamed(naming, rds, start, declared, Listed(current));
    CountDeclared(naming, filtered.pools.declared, "", declared, Listed(current));
    AddToDefaultEverywhere(IsStable(naming), filtered.kept, filtered.pools.declared);
    GiveBackEverywhere(IsStable(naming), added, filtered.pools.attached);
    AddToDefaultEverywhere(IsNamed(naming, declared), filtered.kept, filtered.pools.declared);
    GiveBackEverywhere(IsNamed(naming, declared), added, filtered.pools.attached);
    FinishNamed(naming, GiveBack(added, filtered.pools.attached), declared, Listed(current));
  }

  lemma {:induction false} WaitingMember(naming: Naming, xs: seq<string>, k: string) returns (v: string)
    requires Waiting(naming, xs, k) >= 1
    ensures v in xs && naming.full(v) == k
  {
    if naming.full(xs[0]) == k {
      v := xs[0];
    } else {
      v := WaitingMember(naming, xs[1..], k);
    }
  }

  /** A list that asks for no more than the pools hold passes the filter unchanged. */
  lemma {:induction false} ListPasses(naming: Naming, vlans: seq<string>, pools: Pools,
                                      declared: seq<string>, attached: set<string>)
    requires Lawful(naming, declared, attached) && forall e <- vlans :: Named(naming, declared, e)
    requires PoolsWithin(naming, pools, declared, attached)
    requires forall k :: Occurs(pools.attached, k) <= 1
    requires forall k :: Count(naming, vlans, k) <= Pooled(naming, pools, k)
    ensures FilterList(naming, vlans, pools).kept == vlans
    decreases |vlans|
  {
    if vlans != [] {
      var n := |vlans| - 1;
      var e := vlans[n];
      var before := FilterList(naming, vlans[..n], pools);
      assert vlans == vlans[..n] + [e];
      forall k ensures Count(naming, vlans[..n], k) + One(Denotes(naming, e, k)) == Count(naming, vlans, k) {
        CountConcat(naming, vlans[..n], [e], k);
        CountOne(naming, e, k);
      }
      ListPasses(naming, vlans[..n], pools, declared, attached);
      FilterListWithin(naming, vlans[..n], pools, declared, attached);
      if naming.tag(e).Plain? {
        var k := naming.tag(e).full;
        assert Denotes(naming, e, k);
        ListConserves(naming, vlans[..n], pools, k, declared, attached);
        EntryPasses(naming, e, before, k, declared, attached);
      }
    }
  }

  lemma EntryPasses(naming: Naming, e: string, before: Filtered<string>, k: string,
                    declared: seq<string>, attached: set<string>)
    requires Lawful(naming, declared, attached) && Named(naming, declared, e)
    requires PoolsWithin(naming, before.pools, declared, attached)
    requires Denotes(naming, e, k) && Pooled(naming, before.pools, k) >= 1
    ensures FilterEntry(naming, e, before).kept == before.kept + [e]
  {
    OccursHasKey(before.pools.attached, k);
    if Occurs(before.pools.attached, k) == 0 {
      var v := WaitingMember(naming, before.pools.declared, k);
      assert Declares(naming, declared, k);
    }
  }

  lemma {:induction false} AllPass(naming: Naming, rds: seq<RouteDomain>, pools: Pools,
                                   declared: seq<string>, attached: set<string>)
    requires Lawful(naming, declared, attached) && Everywhere(IsNamed(naming, declared), rds)
    requires PoolsWithin(naming, pools, declared, attached)
    requires forall k :: Occurs(pools.attached, k) <= 1
    requires forall k :: Total(naming, rds, k) <= Pooled(naming, pools, k)
    ensures FilterAll(naming, rds, pools).kept == rds
    decreases |rds|
  {
    if rds != [] {
      var n := |rds| - 1;
      var before := FilterAll(naming, rds[..n], pools);
      assert rds == rds[..n] + [rds[n]];
      forall k ensures Total(naming, rds[..n], k) + CountIn(naming, rds[n], k) == Total(naming, rds, k) {
        TotalConcat(naming, rds[..n], [rds[n]], k);
        TotalOne(naming, rds[n], k);
      }
      AllPass(naming, rds[..n], pools, declared, attached);
      FilterAllWithin(naming, rds[..n], pools, declared, attached);
      forall k ensures Occurs(before.pools.attached, k) <= 1
        ensures CountIn(naming, rds[n], k) <= Pooled(naming, before.pools, k)
      {
        FilterConserves(naming, rds[..n], pools, k, declared, attached);
      }
      if rds[n].vlans.Some? {
        ListPasses(naming, rds[n].vlans.value, before.pools, declared, attached);
      }
    }
  }

  lemma {:induction false} AddNothing(rds: seq<RouteDomain>, vlans: seq<string>)
    requires vlans == [] || !HasDefault(rds)
    ensures AddToDefault(rds, vlans) == rds
  {
    if rds != [] && vlans != [] {
      assert rds[0] in rds;
      assert forall rd <- rds[1..] :: rd in rds;
      AddNothing(rds[1..], vlans);
    }
  }

  lemma {:induction false} PushNothing(rds: seq<RouteDomain>, a: Attachment)
    requires !HasId(rds, a.id)
    ensures PushById(rds, a) == rds
    decreases |rds|
  {
    if rds != [] {
      var n := |rds| - 1;
      NoIdBefore(rds, n, a.id);
      hide HasId;
      PushNothing(rds[..n], a);
      assert rds == rds[..n] + [rds[n]];
    }
  }

  lemma NoIdBefore(rds: seq<RouteDomain>, n: nat, id: string)
    requires n < |rds| && !HasId(rds, id)
    ensures rds[n].id != id && !HasId(rds[..n], id)
  {
  }

  lemma {:induction false} GiveNothing(rds: seq<RouteDomain>, attached: seq<Attachment>)
    requires forall a <- attached :: !HasId(rds, a.id)
    ensures GiveBack(rds, attached) == rds
    decreases |attached|
  {
    if attached != [] {
      var n := |attached| - 1;
      assert attached[n] in attached;
      GiveNothing(rds, attached[..n]);
      PushNothing(rds, attached[n]);
    }
  }

  lemma {:induction false} QualifyFixed(naming: Naming, vlans: seq<string>)
    requires forall e <- vlans :: naming.qualify(e) == e
    ensures QualifyAll(naming, vlans) == vlans
  {
    if vlans != [] {
      QualifyFixed(naming, vlans[1..]);
    }
  }

  lemma {:induction false} FinishNothing(naming: Naming, rds: seq<RouteDomain>)
    requires forall rd <- rds :: Tidy(naming, rd)
    ensures FinishAll(naming, rds) == rds
  {
    if rds != [] {
      assert rds[0] in rds;
      if rds[0].vlans.Some? {
        QualifyFixed(naming, rds[0].vlans.value);
        SortFixed(rds[0].vlans.value);
      }
      FinishNothing(naming, rds[1..]);
    }
  }

  /** After one run the lists ask for no more than the pools hold. */
  lemma Affordable(naming: Naming, rds: seq<RouteDomain>, declared: seq<string>, current: seq<RouteDomain>, k: string)
    requires Lawful(naming, declared, Listed(current))
    ensures Occurs(Attached(naming, current, declared), k) <= 1
    ensures Total(naming, Fixed(naming, rds, declared, current), k)
      <= Pooled(naming, Start(naming, declared, current), k)
  {
    AfterFilter(naming, rds, declared, current, k);
    FixedTotal(naming, rds, declared, current, k);
    SurvivingBound(rds, FilterAll(naming, rds, Start(naming, declared, current)).pools.attached, k);
  }

  /** What a second run still has to hand out goes nowhere. */
  lemma NothingLeft(naming: Naming, rds: seq<RouteDomain>, declared: seq<string>, current: seq<RouteDomain>)
    requires Lawful(naming, declared, Listed(current)) && NoDuplicates(declared)
    ensures var once := Fixed(naming, rds, declared, current);
      var left := FilterAll(naming, once, Start(naming, declared, current)).pools;
      FilterAll(naming, once, Start(naming, declared, current)).kept == once ==>
        && (left.declared == [] || !HasDefault(once))
        && (forall a <- left.attached :: !HasId(once, a.id))
  {
    var start := Start(naming, declared, current);
    var once := Fixed(naming, rds, declared, current);
    var second := FilterAll(naming, once, start);
    if second.kept == once {
      Tidied(naming, rds, declared, current);
      AfterFilter(naming, once, declared, current, "");
      if HasDefault(once) && second.pools.declared != [] {
        var v := second.pools.declared[0];
        var k := naming.full(v);
        SameDomainsHas(once, rds, "");
        AfterFilter(naming, once, declared, current, k);
        WaitingZero(naming, second.pools.declared, v);
        WaitingOnce(naming, declared, declared, Listed(current), k);
        DeclaredNotAttached(naming, declared, current, k);
        DeclaredOnce(naming, rds, declared, current, k);
      }
      forall a <- second.pools.attached ensures !HasId(once, a.id) {
        SecondIdGone(naming, rds, declared, current, a);
      }
    }
  }

  lemma SecondIdGone(naming: Naming, rds: seq<RouteDomain>, declared: seq<string>, current: seq<RouteDomain>,
                     a: Attachment)
    requires Lawful(naming, declared, Listed(current)) && NoDuplicates(declared)
    requires var once := Fixed(naming, rds, declared, current);
      var second := FilterAll(naming, once, Start(naming, declared, current));
      second.kept == once && a in second.pools.attached
    ensures !HasId(Fixed(naming, rds, declared, current), a.id)
  {
    var start := Start(naming, declared, current);
    var once := Fixed(naming, rds, declared, current);
    var second := FilterAll(naming, once, start);
    var k := a.vlan;
    AfterFilter(naming, once, declared, current, k);
    OccursMember(second.pools.attached, k);
    OccursMember(start.attached, k);
    WaitingOnce(naming, declared, declared, Listed(current), k);
    if Declares(naming, declared, k) {
      DeclaredNotAttached(naming, declared, current, k);
    }
    AttachmentPlacement(naming, rds, declared, current, a);
    Tidied(naming, rds, declared, current);
    SameDomainsHas(once, rds, a.id);
  }

  /** For a fixed current configuration, running the fix again changes nothing. */
  lemma Idempotent(naming: Naming, rds: seq<RouteDomain>, declared: seq<string>, current: seq<RouteDomain>)
    requires Lawful(naming, declared, Listed(current)) && NoDuplicates(declared)
    ensures var once := Fixed(naming, rds, declared, current);
      Fixed(naming, once, declared, current) == once
  {
    var start := Start(naming, declared, current);
    var once := Fixed(naming, rds, declared, current);
    forall k ensures Occurs(start.attached, k) <= 1 && Total(naming, once, k) <= Pooled(naming, start, k) {
      Affordable(naming, rds, declared, current, k);
    }
    AttachedFacts(naming, current, declared, "");
    FixedNamed(naming, rds, declared, current);
    AllPass(naming, once, start, declared, Listed(current));
    NothingLeft(naming, rds, declared, current);
    var left := FilterAll(naming, once, start).pools;
    AddNothing(once, left.declared);
    GiveNothing(once, left.attached);
    Tidied(naming, rds, declared, current);
    FinishNothing(naming, once);
  }
}
