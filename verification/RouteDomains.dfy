/**
 * declarationHandler.js, applyRouteDomainVlansFix: VLANs are re-partitioned over the declared route domains.
 * The functions describe the result; `RouteDomainFix` holds the code that edits the route domains in place.
 */
module RouteDomains {
  import opened Prelude
  import opened VlanNames

  datatype RouteDomain = RouteDomain(name: string, id: string, vlans: Option<seq<string>>)

  /** One property of the object `currentVlan2rd`: an attached VLAN and the id of its route domain. */
  datatype Attachment = Attachment(vlan: string, id: string)

  function Keys(xs: seq<Attachment>): set<string>
  {
    set x <- xs :: x.vlan
  }

  /** Assigning a property: overwritten in place or appended. */
  function Put(xs: seq<Attachment>, vlan: string, id: string): seq<Attachment>
  {
    if xs == [] then [Attachment(vlan, id)]
    else if xs[0].vlan == vlan then [Attachment(vlan, id)] + xs[1..]
    else [xs[0]] + Put(xs[1..], vlan, id)
  }

  /** `delete currentVlan2rd[vlan]`. */
  function Drop(xs: seq<Attachment>, vlan: string): seq<Attachment>
  {
    if xs == [] then []
    else if xs[0].vlan == vlan then Drop(xs[1..], vlan)
    else [xs[0]] + Drop(xs[1..], vlan)
  }

  predicate HasKey(xs: seq<Attachment>, vlan: string)
  {
    exists x <- xs :: x.vlan == vlan
  }

  /** `declarationVlans.splice(idx, 1)` at the first occurrence. */
  function Remove(xs: seq<string>, v: string): seq<string>
  {
    if xs == [] then [] else if xs[0] == v then xs[1..] else [xs[0]] + Remove(xs[1..], v)
  }

  // ---------------------------------------------------------------- what is attached now

  function CollectList(naming: Naming, vlans: seq<string>, id: string, declared: seq<string>, into: seq<Attachment>)
    : seq<Attachment>
  {
    if vlans == [] then into
    else
      var before := CollectList(naming, vlans[..|vlans| - 1], id, declared, into);
      var vlan := vlans[|vlans| - 1];
      var tag := naming.tag(vlan);
      if tag.Plain? && (tag.name.None? || tag.name.value !in declared) then Put(before, vlan, id) else before
  }

  /** currentVlan2rd: the undeclared folderless Common VLANs attached on the device. */
  function Attached(naming: Naming, current: seq<RouteDomain>, declared: seq<string>): seq<Attachment>
  {
    if current == [] then []
    else
      var before := Attached(naming, current[..|current| - 1], declared);
      var rd := current[|current| - 1];
      if rd.vlans.None? then before else CollectList(naming, rd.vlans.value, rd.id, declared, before)
  }

  // ---------------------------------------------------------------- filtering the declared lists

  /** VLANs that still have to find a route domain: declared ones, and attached ones nobody has listed yet. */
  datatype Pools = Pools(declared: seq<string>, attached: seq<Attachment>)

  datatype Filtered<T> = Filtered(kept: seq<T>, pools: Pools)

  function FilterList(naming: Naming, vlans: seq<string>, pools: Pools): Filtered<string>
  {
    if vlans == [] then Filtered([], pools)
    else
      var before := FilterList(naming, vlans[..|vlans| - 1], pools);
      FilterEntry(naming, vlans[|vlans| - 1], before)
  }

  function FilterEntry(naming: Naming, vlan: string, before: Filtered<string>): Filtered<string>
  {
    var tag := naming.tag(vlan);
    if tag.Foreign? then before.(kept := before.kept + [vlan])
    else if tag.name.Some? && tag.name.value in before.pools.declared then
      Filtered(before.kept + [vlan],
               before.pools.(declared := Remove(before.pools.declared, tag.name.value)))
    else if HasKey(before.pools.attached, tag.full) then
      Filtered(before.kept + [vlan], before.pools.(attached := Drop(before.pools.attached, tag.full)))
    else before
  }

  function FilterAll(naming: Naming, rds: seq<RouteDomain>, pools: Pools): Filtered<RouteDomain>
  {
    if rds == [] then Filtered([], pools)
    else
      var before := FilterAll(naming, rds[..|rds| - 1], pools);
      var rd := rds[|rds| - 1];
      if rd.vlans.None? then before.(kept := before.kept + [rd])
      else
        var list := FilterList(naming, rd.vlans.value, before.pools);
        Filtered(before.kept + [rd.(vlans := Some(list.kept))], list.pools)
  }

  // ---------------------------------------------------------------- handing out the rest

  function Push(rd: RouteDomain, vlans: seq<string>): RouteDomain
  {
    rd.(vlans := Some((if rd.vlans.Some? then rd.vlans.value else []) + vlans))
  }

  const DEFAULT := "0"

  /** Declared VLANs nobody listed go to route domain 0. */
  function AddToDefault(rds: seq<RouteDomain>, vlans: seq<string>): seq<RouteDomain>
  {
    if rds == [] || vlans == [] then rds
    else if rds[0].name == DEFAULT then [Push(rds[0], vlans)] + rds[1..]
    else [rds[0]] + AddToDefault(rds[1..], vlans)
  }

  /** `rdMapping`: the last route domain with the given id. */
  function PushById(rds: seq<RouteDomain>, a: Attachment): seq<RouteDomain>
  {
    if rds == [] then []
    else
      var n := |rds| - 1;
      if rds[n].id == a.id then rds[..n] + [Push(rds[n], [a.vlan])]
      else PushById(rds[..n], a) + [rds[n]]
  }

  /** Attached VLANs nobody listed return to the route domain with their old id, if it still exists. */
  function GiveBack(rds: seq<RouteDomain>, attached: seq<Attachment>): seq<RouteDomain>
  {
    if attached == [] then rds
    else PushById(GiveBack(rds, attached[..|attached| - 1]), attached[|attached| - 1])
  }

  function QualifyAll(naming: Naming, vlans: seq<string>): seq<string>
  {
    if vlans == [] then [] else [naming.qualify(vlans[0])] + QualifyAll(naming, vlans[1..])
  }

  function Finish(naming: Naming, rd: RouteDomain): RouteDomain
  {
    if rd.vlans.None? then rd else rd.(vlans := Some(Sort(QualifyAll(naming, rd.vlans.value))))
  }

  function FinishAll(naming: Naming, rds: seq<RouteDomain>): seq<RouteDomain>
  {
    if rds == [] then [] else [Finish(naming, rds[0])] + FinishAll(naming, rds[1..])
  }

  /** The route domains after the fix. */
  function Fixed(naming: Naming, rds: seq<RouteDomain>, declared: seq<string>, current: seq<RouteDomain>)
    : seq<RouteDomain>
  {
    var filtered := FilterAll(naming, rds, Pools(declared, Attached(naming, current, declared)));
    FinishAll(naming, GiveBack(AddToDefault(filtered.kept, filtered.pools.declared), filtered.pools.attached))
  }
}
