/**
 * The code of applyDefaultRouteDomainFix and applyRouteDomainVlansFix, which rewrite the declaration in place,
 * and the results about the two fixes as they run one after the other.
 */
module RouteDomainFix {
  import opened Prelude
  import opened VlanNames
  import opened RouteDomains
  import opened VlanConservation
  import opened VlanPlacement
  import opened VlanTheorems
  import opened VlanAttachments
  import opened VlanIdempotence

  // ---------------------------------------------------------------- route domain 0

  function WithoutName(rds: seq<RouteDomain>, name: string): seq<RouteDomain>
  {
    if rds == [] then []
    else (if rds[0].name == name then [] else [rds[0]]) + WithoutName(rds[1..], name)
  }

  /** Assigning the property '0': an integer-like key, so it comes first. */
  function SetDefault(rds: seq<RouteDomain>, rd: RouteDomain): seq<RouteDomain>
  {
    [rd.(name := DEFAULT)] + WithoutName(rds, DEFAULT)
  }

  predicate Misnamed(rd: RouteDomain) { rd.id == DEFAULT && rd.name != DEFAULT }

  /** Route domains with id 0 are renamed to '0'; with several of them the last one wins. */
  function Renamed(rds: seq<RouteDomain>, table: seq<RouteDomain>): seq<RouteDomain>
  {
    if rds == [] then table
    else
      var before := Renamed(rds[..|rds| - 1], table);
      var rd := rds[|rds| - 1];
      if Misnamed(rd) then WithoutName(SetDefault(before, rd), rd.name) else before
  }

  function WithDefault(rds: seq<RouteDomain>, current: seq<RouteDomain>): seq<RouteDomain>
  {
    var renamed := Renamed(rds, rds);
    if !HasDefault(renamed) && HasDefault(current) then SetDefault(renamed, DefaultOf(current)) else renamed
  }

  function DefaultOf(rds: seq<RouteDomain>): RouteDomain
    requires HasDefault(rds)
  {
    if rds[0].name == DEFAULT then rds[0] else DefaultOf(rds[1..])
  }

  // ---------------------------------------------------------------- the code

  class Declaration {
    var routeDomains: seq<RouteDomain>
    const vlans: seq<string>

    constructor (routeDomains: seq<RouteDomain>, vlans: seq<string>)
      ensures this.routeDomains == routeDomains && this.vlans == vlans
    {
      this.routeDomains, this.vlans := routeDomains, vlans;
    }

    method ApplyDefaultRouteDomainFix(current: seq<RouteDomain>)
      modifies this
      ensures routeDomains == WithDefault(old(routeDomains), current)
    {
      var snapshot := routeDomains;
      for i := 0 to |snapshot|
        invariant routeDomains == Renamed(snapshot[..i], snapshot)
      {
        assert snapshot[..i + 1][..i] == snapshot[..i];
        var rd := snapshot[i];
        if rd.id == DEFAULT && rd.name != DEFAULT {
          routeDomains := SetDefault(routeDomains, rd);
          routeDomains := WithoutName(routeDomains, rd.name);
        }
      }
      assert snapshot[..|snapshot|] == snapshot;
      if !HasDefault(routeDomains) && HasDefault(current) {
        routeDomains := SetDefault(routeDomains, DefaultOf(current));
      }
    }

    method ApplyRouteDomainVlansFix(current: seq<RouteDomain>)
      modifies this
      ensures routeDomains == Fixed(TMOS, old(routeDomains), vlans, current)
    {
      var currentVlan2rd := CollectAttached(current);
      ghost var before := routeDomains;
      var declarationVlans, rdMapping;
      declarationVlans, currentVlan2rd, rdMapping := FilterRouteDomains(currentVlan2rd);
      ghost var filtered := routeDomains;
      FilterAllSame(TMOS, before, Start(TMOS, vlans, current));
      if declarationVlans != [] {
        AddToDefaultRouteDomain(declarationVlans);
      }
      AddNothing(filtered, []);
      AddToDefaultSame(filtered, declarationVlans);
      SameLastIndices(rdMapping, before, routeDomains);
      GiveBackAttached(currentVlan2rd, rdMapping);
      SortVlans();
    }

    /** Filters every list and records the last route domain for each id. */
    method FilterRouteDomains(attached: seq<Attachment>)
      returns (declarationVlans: seq<string>, currentVlan2rd: seq<Attachment>, rdMapping: map<string, nat>)
      modifies this
      ensures Filtered(routeDomains, Pools(declarationVlans, currentVlan2rd))
        == FilterAll(TMOS, old(routeDomains), Pools(vlans, attached))
      ensures LastIndices(rdMapping, old(routeDomains))
    {
      hide FilterAll, FilterList;
      ghost var before := routeDomains;
      ghost var start := Pools(vlans, attached);
      FilterAllNone(TMOS, start);
      declarationVlans, currentVlan2rd, rdMapping := vlans, attached, map[];
      for i := 0 to |routeDomains|
        invariant |routeDomains| == |before| && i <= |before|
        invariant routeDomains[i..] == before[i..]
        invariant Filtered(routeDomains[..i], Pools(declarationVlans, currentVlan2rd))
          == FilterAll(TMOS, before[..i], start)
        invariant LastIndices(rdMapping, before[..i])
      {
        var rd := routeDomains[i];
        assert rd == before[i] by { assert routeDomains[i..][0] == before[i..][0]; }
        assert before[..i + 1] == before[..i] + [rd];
        FilterAllNext(TMOS, before[..i], rd, start);
        ExtendIndices(rdMapping, before[..i], rd);
        rdMapping := rdMapping[rd.id := i];
        if rd.vlans.Some? {
          var kept;
          kept, declarationVlans, currentVlan2rd := Filter(rd.vlans.value, declarationVlans, currentVlan2rd);
          UpdateSlices(routeDomains, i, rd.(vlans := Some(kept)));
          routeDomains := routeDomains[i := rd.(vlans := Some(kept))];
        } else {
          UpdateSlices(routeDomains, i, rd);
        }
        assert before[i..][1..] == before[i + 1..];
      }
      assert before[..|before|] == before && routeDomains[..|before|] == routeDomains;
    }

    method GiveBackAttached(currentVlan2rd: seq<Attachment>, rdMapping: map<string, nat>)
      requires LastIndices(rdMapping, routeDomains)
      modifies this
      ensures routeDomains == GiveBack(old(routeDomains), currentVlan2rd)
    {
      ghost var before := routeDomains;
      for i := 0 to |currentVlan2rd|
        invariant routeDomains == GiveBack(before, currentVlan2rd[..i])
      {
        var a := currentVlan2rd[i];
        assert currentVlan2rd[..i + 1][..i] == currentVlan2rd[..i];
        GiveBackSame(before, currentVlan2rd[..i]);
        SameLastIndices(rdMapping, before, routeDomains);
        PushAtMapped(rdMapping, routeDomains, a);
        if a.id in rdMapping {
          var j := rdMapping[a.id];
          routeDomains := routeDomains[j := Push(routeDomains[j], [a.vlan])];
        }
      }
      assert currentVlan2rd[..|currentVlan2rd|] == currentVlan2rd;
    }

    method SortVlans()
      modifies this
      ensures routeDomains == FinishAll(TMOS, old(routeDomains))
    {
      ghost var before := routeDomains;
      for i := 0 to |routeDomains|
        invariant |routeDomains| == |before|
        invariant forall j | 0 <= j < i :: routeDomains[j] == Finish(TMOS, before[j])
        invariant forall j | i <= j < |before| :: routeDomains[j] == before[j]
      {
        var rd := routeDomains[i];
        if rd.vlans.Some? {
          routeDomains := routeDomains[i := rd.(vlans := Some(Sort(QualifyAll(TMOS, rd.vlans.value))))];
        }
      }
      FinishPointwise(TMOS, before, routeDomains);
    }

    method AddToDefaultRouteDomain(declarationVlans: seq<string>)
      requires declarationVlans != []
      modifies this
      ensures routeDomains == AddToDefault(old(routeDomains), declarationVlans)
    {
      var i := 0;
      while i < |routeDomains| && routeDomains[i].name != DEFAULT
        invariant i <= |routeDomains| && forall j | 0 <= j < i :: routeDomains[j].name != DEFAULT
      {
        i := i + 1;
      }
      AddToDefaultIs(routeDomains, declarationVlans, i);
      if i < |routeDomains| {
        routeDomains := routeDomains[i := Push(routeDomains[i], declarationVlans)];
      }
    }

    method CollectAttached(current: seq<RouteDomain>) returns (currentVlan2rd: seq<Attachment>)
      ensures currentVlan2rd == Attached(TMOS, current, vlans)
    {
      currentVlan2rd := [];
      for i := 0 to |current|
        invariant currentVlan2rd == Attached(TMOS, current[..i], vlans)
      {
        assert current[..i + 1][..i] == current[..i];
        if current[i].vlans.Some? {
          var list, id := current[i].vlans.value, current[i].id;
          ghost var before := currentVlan2rd;
          for j := 0 to |list|
            invariant currentVlan2rd == CollectList(TMOS, list[..j], id, vlans, before)
          {
            assert list[..j + 1][..j] == list[..j];
            var parsedName := ParseTmosName(list[j]);
            if parsedName.partition == COMMON && parsedName.folder == ""
              && (parsedName.name.None? || parsedName.name.value !in vlans) {
              currentVlan2rd := Put(currentVlan2rd, list[j], id);
            }
          }
          assert list[..|list|] == list;
        }
      }
      assert current[..|current|] == current;
    }

    /** The callback of `rd.vlans.filter`, which also shrinks the two pools. */
    method Filter(list: seq<string>, declarationVlans: seq<string>, currentVlan2rd: seq<Attachment>)
      returns (kept: seq<string>, declaredLeft: seq<string>, currentLeft: seq<Attachment>)
      ensures Filtered(kept, Pools(declaredLeft, currentLeft))
        == FilterList(TMOS, list, Pools(declarationVlans, currentVlan2rd))
    {
      kept, declaredLeft, currentLeft := [], declarationVlans, currentVlan2rd;
      ghost var start := Pools(declarationVlans, currentVlan2rd);
      for i := 0 to |list|
        invariant Filtered(kept, Pools(declaredLeft, currentLeft)) == FilterList(TMOS, list[..i], start)
      {
        assert list[..i + 1][..i] == list[..i];
        var parsedName := ParseTmosName(list[i]);
        var keepVlan := true;
        if parsedName.partition == COMMON && parsedName.folder == "" {
          var fullName := GetTmosName(parsedName);
          if parsedName.name.Some? && parsedName.name.value in declaredLeft {
            declaredLeft := Remove(declaredLeft, parsedName.name.value);
          } else if HasKey(currentLeft, fullName) {
            currentLeft := Drop(currentLeft, fullName);
          } else {
            keepVlan := false;
          }
        }
        if keepVlan {
          kept := kept + [list[i]];
        }
      }
      assert list[..|list|] == list;
    }
  }

  // ---------------------------------------------------------------- lemmas for the code

  lemma UpdateSlices<T>(s: seq<T>, i: nat, x: T)
    requires i < |s|
    ensures s[i := x][..i + 1] == s[..i] + [x]
    ensures s[i := x][i + 1..] == s[i..][1..]
    ensures s[i] == x ==> s[i := x] == s
  {
  }

  ghost predicate LastIndices(mapping: map<string, nat>, rds: seq<RouteDomain>)
  {
    && (forall i | 0 <= i < |rds| :: rds[i].id in mapping && i <= mapping[rds[i].id])
    && (forall id <- mapping :: mapping[id] < |rds| && rds[mapping[id]].id == id)
  }

  lemma ExtendIndices(mapping: map<string, nat>, rds: seq<RouteDomain>, rd: RouteDomain)
    requires LastIndices(mapping, rds)
    ensures LastIndices(mapping[rd.id := |rds|], rds + [rd])
  {
  }

  lemma SameLastIndices(mapping: map<string, nat>, a: seq<RouteDomain>, b: seq<RouteDomain>)
    requires LastIndices(mapping, a) && SameDomains(a, b)
    ensures LastIndices(mapping, b)
  {
  }

  lemma {:induction false} PushAtIndex(rds: seq<RouteDomain>, a: Attachment, i: nat)
    requires i < |rds| && rds[i].id == a.id && forall j | i < j < |rds| :: rds[j].id != a.id
    ensures PushById(rds, a) == rds[i := Push(rds[i], [a.vlan])]
    decreases |rds|
  {
    if i < |rds| - 1 {
      PushAtIndex(rds[..|rds| - 1], a, i);
    }
  }

  lemma PushAtMapped(mapping: map<string, nat>, rds: seq<RouteDomain>, a: Attachment)
    requires LastIndices(mapping, rds)
    ensures if a.id in mapping
      then mapping[a.id] < |rds| && PushById(rds, a) == rds[mapping[a.id] := Push(rds[mapping[a.id]], [a.vlan])]
      else PushById(rds, a) == rds
  {
    if a.id in mapping {
      PushAtIndex(rds, a, mapping[a.id]);
    } else {
      PushNothing(rds, a);
    }
  }

  lemma FilterAllNone(naming: Naming, pools: Pools)
    ensures FilterAll(naming, [], pools) == Filtered([], pools)
  {
  }

  lemma FilterAllNext(naming: Naming, rds: seq<RouteDomain>, rd: RouteDomain, pools: Pools)
    ensures var before := FilterAll(naming, rds, pools);
      FilterAll(naming, rds + [rd], pools) ==
        if rd.vlans.None? then before.(kept := before.kept + [rd])
        else
          var list := FilterList(naming, rd.vlans.value, before.pools);
          Filtered(before.kept + [rd.(vlans := Some(list.kept))], list.pools)
  {
    hide FilterList;
    assert (rds + [rd])[..|rds + [rd]| - 1] == rds;
  }

  lemma {:induction false} AddToDefaultIs(rds: seq<RouteDomain>, vlans: seq<string>, i: nat)
    requires vlans != [] && i <= |rds| && forall j | 0 <= j < i :: rds[j].name != DEFAULT
    requires i < |rds| ==> rds[i].name == DEFAULT
    ensures AddToDefault(rds, vlans) == if i < |rds| then rds[i := Push(rds[i], vlans)] else rds
  {
    if i > 0 {
      AddToDefaultIs(rds[1..], vlans, i - 1);
    }
  }

  lemma {:induction false} FinishPointwise(naming: Naming, before: seq<RouteDomain>, after: seq<RouteDomain>)
    requires |before| == |after| && forall j | 0 <= j < |before| :: after[j] == Finish(naming, before[j])
    ensures after == FinishAll(naming, before)
  {
    if before != [] {
      FinishPointwise(naming, before[1..], after[1..]);
    }
  }

  // ---------------------------------------------------------------- the default route domain

  predicate UniqueRdNames(rds: seq<RouteDomain>)
  {
    forall i, j | 0 <= i < j < |rds| :: rds[i].name != rds[j].name
  }

  lemma {:induction false} WithoutNameMembers(rds: seq<RouteDomain>, name: string)
    ensures forall rd :: rd in WithoutName(rds, name) <==> rd in rds && rd.name != name
  {
    if rds != [] {
      WithoutNameMembers(rds[1..], name);
      assert forall rd :: rd in rds <==> rd == rds[0] || rd in rds[1..];
    }
  }

  lemma RenamedMembers(rds: seq<RouteDomain>, table: seq<RouteDomain>, rd: RouteDomain)
    ensures rd.name != DEFAULT ==>
      (rd in Renamed(rds, table) <==> rd in table && forall r <- rds | Misnamed(r) :: r.name != rd.name)
    ensures HasDefault(Renamed(rds, table)) <==> HasDefault(table) || exists r <- rds :: Misnamed(r)
    decreases |rds|
  {
    if rds != [] {
      var n := |rds| - 1;
      RenamedMembers(rds[..n], table, rd);
      var before := Renamed(rds[..n], table);
      assert rds == rds[..n] + [rds[n]];
      if Misnamed(rds[n]) {
        WithoutNameMembers(before, DEFAULT);
        WithoutNameMembers(SetDefault(before, rds[n]), rds[n].name);
        assert rds[n].(name := DEFAULT) in Renamed(rds, table);
      }
    }
  }

  /**
   * Once the device has route domain 0, so has the fixed declaration; every declared route domain that is neither
   * named nor numbered 0 stays, and nothing else is left but route domain 0.
   */
  lemma DefaultPresent(rds: seq<RouteDomain>, current: seq<RouteDomain>)
    requires UniqueRdNames(rds) && exists rd <- current :: rd.name == "0"
    ensures exists rd <- WithDefault(rds, current) :: rd.name == "0"
    ensures HasDefault(WithDefault(rds, current))
    ensures forall rd: RouteDomain | rd.name != "0" :: rd in WithDefault(rds, current) <==> rd in rds && rd.id != "0"
  {
    var renamed := Renamed(rds, rds);
    forall rd: RouteDomain | rd.name != DEFAULT
      ensures rd in WithDefault(rds, current) <==> rd in rds && rd.id != DEFAULT
    {
      RenamedMembers(rds, rds, rd);
      WithoutNameMembers(renamed, DEFAULT);
      if rd in rds && rd.id != DEFAULT {
        forall r <- rds | Misnamed(r) ensures r.name != rd.name {
          var i :| 0 <= i < |rds| && rds[i] == r;
          var j :| 0 <= j < |rds| && rds[j] == rd;
        }
      }
    }
    if !HasDefault(renamed) {
      assert DefaultOf(current).(name := DEFAULT) in WithDefault(rds, current);
    }
  }

  // ---------------------------------------------------------------- the two fixes together

  /** Unqualified declared VLAN names, each once; fully qualified lists on the device. */
  ghost predicate WellFormed(vlans: seq<string>, current: seq<RouteDomain>)
  {
    && NoDuplicates(vlans) && (forall v <- vlans :: '/' !in v)
    && (forall a <- Listed(current) | TagOf(a).Plain? :: TagOf(a).full == a)
  }

  function BothFixes(rds: seq<RouteDomain>, vlans: seq<string>, current: seq<RouteDomain>): seq<RouteDomain>
  {
    Fixed(TMOS, WithDefault(rds, current), vlans, current)
  }

  /** After both fixes every VLAN is where it belongs, whatever the declaration listed. */
  lemma PlacementAfterBothFixes(rds: seq<RouteDomain>, vlans: seq<string>, current: seq<RouteDomain>, k: string)
    requires UniqueRdNames(rds) && WellFormed(vlans, current) && HasDefault(current)
    ensures Total(TMOS, BothFixes(rds, vlans, current), k) ==
      One(Declares(TMOS, vlans, k)
          || (TagOf(k).Plain? && exists i ::
                (LastLister(current, k, i)
                 && (Total(TMOS, WithDefault(rds, current), k) >= 1
                     || HasId(WithDefault(rds, current), current[i].id)))))
  {
    DefaultPresent(rds, current);
    TmosLawful(vlans, Listed(current));
    ExactPlacement(TMOS, WithDefault(rds, current), vlans, current, k);
  }

  /** A second VLAN fix changes nothing. */
  lemma VlansFixIdempotent(rds: seq<RouteDomain>, vlans: seq<string>, current: seq<RouteDomain>)
    requires WellFormed(vlans, current)
    ensures Fixed(TMOS, Fixed(TMOS, rds, vlans, current), vlans, current) == Fixed(TMOS, rds, vlans, current)
  {
    TmosLawful(vlans, Listed(current));
    Idempotent(TMOS, rds, vlans, current);
  }

  lemma NothingMisnamed(rds: seq<RouteDomain>, current: seq<RouteDomain>)
    ensures forall rd <- WithDefault(rds, current) :: !Misnamed(rd)
    ensures HasDefault(current) ==> HasDefault(WithDefault(rds, current))
  {
    var renamed := Renamed(rds, rds);
    forall rd <- WithDefault(rds, current) ensures !Misnamed(rd) {
      RenamedMembers(rds, rds, rd);
      WithoutNameMembers(renamed, DEFAULT);
    }
    if !HasDefault(renamed) && HasDefault(current) {
      assert DefaultOf(current).(name := DEFAULT) in WithDefault(rds, current);
    }
  }

  lemma {:induction false} NothingToRename(rds: seq<RouteDomain>, table: seq<RouteDomain>)
    requires forall rd <- rds :: !Misnamed(rd)
    ensures Renamed(rds, table) == table
    decreases |rds|
  {
    if rds != [] {
      NothingToRename(rds[..|rds| - 1], table);
    }
  }

  /** Running both fixes again changes nothing, with or without route domain 0 on the device. */
  lemma BothFixesIdempotent(rds: seq<RouteDomain>, vlans: seq<string>, current: seq<RouteDomain>)
    requires WellFormed(vlans, current)
    ensures BothFixes(BothFixes(rds, vlans, current), vlans, current) == BothFixes(rds, vlans, current)
  {
    var renamed := WithDefault(rds, current);
    var once := BothFixes(rds, vlans, current);
    TmosLawful(vlans, Listed(current));
    NothingMisnamed(rds, current);
    Tidied(TMOS, renamed, vlans, current);
    SameDomainsHas(once, renamed, "");
    forall rd <- once ensures !Misnamed(rd) {
      var i :| 0 <= i < |once| && once[i] == rd;
      assert renamed[i] in renamed;
    }
    NothingToRename(once, once);
    VlansFixIdempotent(renamed, vlans, current);
  }
}
