/**
 * Renaming between iControl REST ids and the declaration's newIds: configManager.js mapProperties (with
 * translateToNewId) one way, parserUtil.js updateIds the other way, both driven by the same table.
 */
module Ids {
  import opened Prelude
  import opened DeepPath
  import opened Text

  type Item = map<string, Value>

  const COMMON_PREFIX := "/Common/"
  const NAME := "name"

  /** One row of the table; `available`: the device's version has the property. */
  datatype Property = Property(
    id: string,
    newId: Option<string>,
    truth: Option<string>,
    falsehood: Option<string>,
    skipWhenOmitted: bool,
    retainCommon: bool,
    available: bool,
    defaultWhenOmitted: Option<Value>)

  function Deep(item: Item, path: string): Option<Value>
  {
    GetDeepValue(Some(Object(false, item)), path)
  }

  function Assign(item: Item, k: string, v: Option<Value>): Item
  {
    if v.Some? then item[k := v.value] else RemoveKey(item, k)
  }

  // ---------------------------------------------------------------- from the device: mapProperties

  function Stripped(p: Property, v: Option<Value>): Option<Value>
  {
    if v.Some? && v.value.Str? && COMMON_PREFIX <= v.value.text && !p.retainCommon
    then Some(Str(v.value.text[|COMMON_PREFIX|..])) else v
  }

  /** A property's value as mapProperties leaves it, before it is renamed. */
  function There(p: Property, v: Option<Value>): Option<Value>
  {
    if !p.available then v
    else
      var mapped := if p.truth.Some? && (v.Some? || !p.skipWhenOmitted)
                    then Some(Bool(Truthy(v) && v.value == Str(p.truth.value))) else v;
      if mapped.Some? then Stripped(p, mapped) else p.defaultWhenOmitted
  }

  /** `newId.indexOf('.') > 0` decides between a nested object and a plain rename. */
  function RenameId(item: Item, id: string, newId: string): Option<Item>
    requires id in item
  {
    if newId != "" && newId[0] != '.' && '.' in newId then
      var nested := Put(Object(false, item), Split(newId, "."), item[id], MapNewId);
      if nested.None? then None else Some(RemoveKey(nested.value.properties, id))
    else Some(RemoveKey(item[newId := item[id]], id))
  }

  function MapProperty(item: Item, p: Property): Option<Item>
  {
    var mapped := Assign(item, p.id, There(p, Lookup(item, p.id)));
    if p.available && p.newId.Some? && p.id in mapped then RenameId(mapped, p.id, p.newId.value) else Some(mapped)
  }

  /** The item after the first `n` properties; None if a rename throws. */
  function MapFirst(table: seq<Property>, n: nat, item: Item): Option<Item>
    requires n <= |table|
  {
    if n == 0 then Some(item)
    else
      var before := MapFirst(table, n - 1, item);
      if before.None? then None else MapProperty(before.value, table[n - 1])
  }

  // ---------------------------------------------------------------- to the device: updateIds

  predicate Omitted(v: Option<Value>) { v.None? || v.value.Null? }

  predicate NonEmpty(s: Option<string>) { s.Some? && s.value != "" }

  function MapUndefined(p: Property, v: Option<Value>): Option<Value>
  {
    if Omitted(v) && Truthy(p.defaultWhenOmitted) then p.defaultWhenOmitted else v
  }

  function MapTruth(p: Property, v: Option<Value>): Option<Value>
  {
    if v == Some(Bool(true)) && NonEmpty(p.truth) then Some(Str(p.truth.value))
    else if v == Some(Bool(false)) && NonEmpty(p.falsehood) then Some(Str(p.falsehood.value))
    else if Omitted(v) && NonEmpty(p.falsehood) && !p.skipWhenOmitted then Some(Str(p.falsehood.value))
    else v
  }

  function HandleMappings(p: Property, v: Option<Value>): Option<Value>
  {
    MapTruth(p, MapUndefined(p, v))
  }

  predicate Renamed(p: Property) { NonEmpty(p.newId) }

  /** The value at the newId, or, if it has been updated before, at the id. */
  function Found(item: Item, p: Property): Option<Value>
  {
    var first := Deep(item, if Renamed(p) then p.newId.value else p.id);
    if first.Some? then first else Deep(item, p.id)
  }

  function UpdateProperty(item: Item, p: Property, name: Option<Value>): Item
  {
    var v := HandleMappings(p, Found(item, p));
    var updated := if Omitted(v) then item else item[p.id := v.value];
    if p.newId == Some(NAME) then Assign(updated, NAME, name) else updated
  }

  function UpdateFirst(table: seq<Property>, n: nat, item: Item, name: Option<Value>): Item
    requires n <= |table|
  {
    if n == 0 then item else UpdateProperty(UpdateFirst(table, n - 1, item, name), table[n - 1], name)
  }

  /** The newIds collected on the way, each once. */
  function IdsToDelete(table: seq<Property>, n: nat): seq<string>
    requires n <= |table|
  {
    if n == 0 then []
    else
      var before := IdsToDelete(table, n - 1);
      var newId := table[n - 1].newId;
      if NonEmpty(newId) && newId.value != NAME && newId.value !in before then before + [newId.value] else before
  }

  /** Deleting the outermost container of each of them. */
  function WithoutContainers(item: Item, ids: seq<string>, n: nat): Item
    requires n <= |ids|
  {
    if n == 0 then item else RemoveKey(WithoutContainers(item, ids, n - 1), Split(ids[n - 1], ".")[0])
  }

  function UpdateIds(table: seq<Property>, item: Item, name: Option<Value>): Item
  {
    var ids := IdsToDelete(table, |table|);
    WithoutContainers(UpdateFirst(table, |table|, item, name), ids, |ids|)
  }

  // ---------------------------------------------------------------- the loops

  class Renamer {
    const table: seq<Property>

    constructor (properties: seq<Property>)
      ensures table == properties
    {
      table := properties;
    }

    method MapProperties(item: Item) returns (mappedItem: Option<Item>)
      ensures mappedItem == MapFirst(table, |table|, item)
    {
      mappedItem := Some(item);
      for i := 0 to |table|
        invariant mappedItem == MapFirst(table, i, item)
      {
        if mappedItem.Some? {
          mappedItem := MapProperty(mappedItem.value, table[i]);
        }
      }
    }

    method Update(declarationItem: Item, propertyName: Option<string>) returns (itemToUpdate: Item)
      ensures itemToUpdate == UpdateIds(table, declarationItem,
        if NonEmpty(propertyName) then Some(Str(propertyName.value)) else Lookup(declarationItem, NAME))
    {
      var name := if NonEmpty(propertyName) then Some(Str(propertyName.value)) else Lookup(declarationItem, NAME);
      itemToUpdate := declarationItem;
      var idsToDelete: seq<string> := [];
      for i := 0 to |table|
        invariant itemToUpdate == UpdateFirst(table, i, declarationItem, name)
        invariant idsToDelete == IdsToDelete(table, i)
      {
        var newId := table[i].newId;
        itemToUpdate := UpdateProperty(itemToUpdate, table[i], name);
        if NonEmpty(newId) && newId.value != NAME && newId.value !in idsToDelete {
          idsToDelete := idsToDelete + [newId.value];
        }
      }
      ghost var updated := itemToUpdate;
      for i := 0 to |idsToDelete|
        invariant itemToUpdate == WithoutContainers(updated, idsToDelete, i)
      {
        itemToUpdate := RemoveKey(itemToUpdate, Split(idsToDelete[i], ".")[0]);
      }
    }
  }

  // ---------------------------------------------------------------- well-formed tables

  function Parts(p: Property): (parts: Path)
    requires p.newId.Some?
    ensures parts != []
  {
    Split(p.newId.value, ".")
  }

  predicate PlainId(id: string) { id != "" && '.' !in id }

  /** Rows that can be told apart: plain distinct ids, proper newIds outside of them. */
  predicate Table(t: seq<Property>)
  {
    && (forall i | 0 <= i < |t| :: PlainId(t[i].id))
    && (forall i, j | 0 <= i < j < |t| :: t[i].id != t[j].id)
    && (forall i | 0 <= i < |t| && t[i].newId.Some? ::
          t[i].newId.value != "" && t[i].newId.value != NAME && "" !in Parts(t[i]))
    && (forall i, j | 0 <= i < |t| && 0 <= j < |t| && t[i].newId.Some? :: Parts(t[i])[0] != t[j].id)
  }

  /** No newId lies below another one. */
  predicate PrefixFree(t: seq<Property>)
  {
    forall i, j | 0 <= i < j < |t| && t[i].newId.Some? && t[j].newId.Some? :: Unrelated(Parts(t[i]), Parts(t[j]))
  }

  /** The item has nothing where the newIds go. */
  predicate Clear(t: seq<Property>, item: Item)
  {
    forall i | 0 <= i < |t| && t[i].newId.Some? :: Parts(t[i])[0] !in item
  }

  predicate IsTop(t: seq<Property>, k: string)
  {
    exists i :: 0 <= i < |t| && t[i].newId.Some? && Parts(t[i])[0] == k
  }

  lemma PlainDeep(item: Item, id: string)
    requires PlainId(id)
    ensures Deep(item, id) == Lookup(item, id)
  {
    SplitAtom(id, ".");
    GetDeepValueIsGet(Some(Object(false, item)), id);
  }

  lemma DeepIsGet(item: Item, path: string)
    ensures Deep(item, path) == Get(Some(Object(false, item)), Split(path, "."))
  {
    GetDeepValueIsGet(Some(Object(false, item)), path);
  }

  lemma LeadingDot(newId: string)
    requires newId != ""
    ensures newId[0] == '.' ==> Split(newId, ".")[0] == ""
  {
    if newId[0] == '.' {
      assert newId[..1] == ".";
    }
  }

  lemma RenameIdParts(item: Item, id: string, newId: string)
    requires id in item && newId != "" && "" !in Split(newId, ".") && Split(newId, ".")[0] != id
    ensures var r := Put(Object(false, item), Split(newId, "."), item[id], MapNewId);
      RenameId(item, id, newId) == if r.None? then None else Some(RemoveKey(r.value.properties, id))
  {
    LeadingDot(newId);
    if '.' !in newId {
      SplitAtom(newId, ".");
    }
  }
}
