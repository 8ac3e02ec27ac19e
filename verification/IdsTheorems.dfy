/**
 * The two directions of the renaming undo each other, and the second one is idempotent: exactly when.
 */
module IdsTheorems {
  import opened Prelude
  import opened Text
  import opened DeepPath
  import opened Ids

  // ---------------------------------------------------------------- the item on its way: after mapProperties

  function Mapped(t: seq<Property>, item: Item, i: nat): Option<Value>
    requires i < |t|
  {
    There(t[i], Lookup(item, t[i].id))
  }

  predicate Moves(t: seq<Property>, item: Item, i: nat)
    requires i < |t|
  {
    t[i].available && t[i].newId.Some? && Mapped(t, item, i).Some?
  }

  function Whole(item: Item): Value { Object(false, item) }

  /** The item after `n` rows: each value is at its newId or still at its id, and the rest is untouched. */
  ghost predicate Midway(t: seq<Property>, item: Item, n: nat, m: Item)
    requires n <= |t|
  {
    KeysMidway(t, item, n, m) && PathsMidway(t, item, n, m)
  }

  ghost predicate KeysMidway(t: seq<Property>, item: Item, n: nat, m: Item)
    requires n <= |t|
  {
    && (forall i | 0 <= i < n :: Lookup(m, t[i].id) == if Moves(t, item, i) then None else Mapped(t, item, i))
    && (forall k | !IsTop(t, k) && !IsId(t, n, k) :: Lookup(m, k) == Lookup(item, k))
  }

  ghost predicate PathsMidway(t: seq<Property>, item: Item, n: nat, m: Item)
    requires n <= |t|
  {
    forall i | 0 <= i < |t| && t[i].newId.Some? :: PathMidway(t, item, n, m, i)
  }

  /** What is at a newId, and that its containers are objects or free. */
  ghost predicate PathMidway(t: seq<Property>, item: Item, n: nat, m: Item, i: nat)
    requires n <= |t| && i < |t| && t[i].newId.Some?
  {
    && Get(Some(Whole(m)), Parts(t[i])) == (if i < n && Moves(t, item, i) then Mapped(t, item, i) else None)
    && OpenPath(Whole(m), Parts(t[i]))
  }

  predicate IsId(t: seq<Property>, n: nat, k: string)
    requires n <= |t|
  {
    exists i :: 0 <= i < n && t[i].id == k
  }

  /** Items that agree on the first component agree along the path. */
  lemma GetAgree(a: Item, b: Item, p: Path)
    requires p != [] && p[0] != "" && Lookup(a, p[0]) == Lookup(b, p[0])
    ensures Get(Some(Whole(a)), p) == Get(Some(Whole(b)), p)
  {
  }

  lemma OpenAgree(a: Item, b: Item, p: Path)
    requires p != [] && p[0] != "" && Lookup(a, p[0]) == Lookup(b, p[0]) && OpenPath(Whole(a), p)
    ensures OpenPath(Whole(b), p)
  {
    forall m | 0 < m < |p| ensures Get(Some(Whole(b)), p[..m]).None? || Get(Some(Whole(b)), p[..m]).value.Object? {
      assert p[..m][0] == p[0];
      GetAgree(a, b, p[..m]);
    }
  }

  lemma StartsMidway(t: seq<Property>, item: Item)
    requires Table(t) && Clear(t, item)
    ensures Midway(t, item, 0, item)
  {
    forall i | 0 <= i < |t| && t[i].newId.Some? ensures PathMidway(t, item, 0, item, i) {
      forall m | 0 < m < |Parts(t[i])| ensures Get(Some(Whole(item)), Parts(t[i])[..m]).None? {
        assert Parts(t[i])[..m][0] == Parts(t[i])[0];
      }
    }
  }

  /** The row's own value is still the item's, and the row's id starts no newId. */
  lemma StillThere(t: seq<Property>, item: Item, n: nat, m: Item)
    requires Table(t) && n < |t| && KeysMidway(t, item, n, m)
    ensures Lookup(m, t[n].id) == Lookup(item, t[n].id) && !IsTop(t, t[n].id)
  {
    assert !IsTop(t, t[n].id) && !IsId(t, n, t[n].id);
  }

  /** Changing the row's id, and possibly one container, keeps the other keys. */
  lemma KeysStep(t: seq<Property>, item: Item, n: nat, m: Item, next: Item)
    requires Table(t) && n < |t| && KeysMidway(t, item, n, m)
    requires Lookup(next, t[n].id) == if Moves(t, item, n) then None else Mapped(t, item, n)
    requires forall k | k != t[n].id && !IsTop(t, k) :: Lookup(next, k) == Lookup(m, k)
    ensures KeysMidway(t, item, n + 1, next)
  {
    hide There, Mapped, Moves, Parts;
    forall i | 0 <= i < n ensures Lookup(next, t[i].id) == Lookup(m, t[i].id) {
      assert t[i].id != t[n].id;
      IdIsNoTop(t, i);
    }
    forall k | !IsTop(t, k) && !IsId(t, n + 1, k) ensures Lookup(next, k) == Lookup(item, k) {
      assert t[n].id != k;
      assert !IsId(t, n, k);
    }
  }

  lemma IdIsNoTop(t: seq<Property>, i: nat)
    requires Table(t) && i < |t|
    ensures !IsTop(t, t[i].id)
  {
  }

  lemma StayStep(t: seq<Property>, item: Item, n: nat, m: Item)
    requires Table(t) && n < |t| && Midway(t, item, n, m) && !Moves(t, item, n)
    ensures MapProperty(m, t[n]) == Some(Assign(m, t[n].id, Mapped(t, item, n)))
    ensures Midway(t, item, n + 1, Assign(m, t[n].id, Mapped(t, item, n)))
  {
    hide There, RenameId, OpenPath, Get;
    StillThere(t, item, n, m);
    var next := Assign(m, t[n].id, Mapped(t, item, n));
    KeysStep(t, item, n, m, next);
    forall i | 0 <= i < |t| && t[i].newId.Some? ensures PathMidway(t, item, n + 1, next, i) {
      assert PathMidway(t, item, n, m, i);
      GetAgree(next, m, Parts(t[i]));
      OpenAgree(m, next, Parts(t[i]));
    }
  }

  /** The row's value on its way: assigned at the id, put at the newId, deleted at the id. */
  ghost predicate Renaming(t: seq<Property>, item: Item, n: nat, m: Item, filled: Item, placed: Value, next: Item)
    requires n < |t|
  {
    && Moves(t, item, n)
    && filled == m[t[n].id := Mapped(t, item, n).value]
    && Put(Whole(filled), Parts(t[n]), Mapped(t, item, n).value, MapNewId) == Some(placed)
    && placed.Object? && !placed.isArray && next == RemoveKey(placed.properties, t[n].id)
  }

  lemma RenamingGoesThrough(t: seq<Property>, item: Item, n: nat, m: Item)
    returns (filled: Item, placed: Value, next: Item)
    requires Table(t) && n < |t| && Midway(t, item, n, m) && Moves(t, item, n)
    ensures MapProperty(m, t[n]) == Some(next) && Renaming(t, item, n, m, filled, placed, next)
  {
    hide There, RenameId, OpenPath, Get, Put;
    var id, v, p := t[n].id, Mapped(t, item, n).value, Parts(t[n]);
    StillThere(t, item, n, m);
    assert PathMidway(t, item, n, m, n);
    filled := m[id := v];
    RenameIdParts(filled, id, t[n].newId.value);
    OpenAgree(m, filled, p);
    PutSucceeds(Whole(filled), p, v);
    placed := Put(Whole(filled), p, v, MapNewId).value;
    PutElsewhere(Whole(filled), p, v, MapNewId, id);
    next := RemoveKey(placed.properties, id);
  }

  lemma MoveStep(t: seq<Property>, item: Item, n: nat, m: Item)
    requires Table(t) && PrefixFree(t) && n < |t| && Midway(t, item, n, m) && Moves(t, item, n)
    ensures MapProperty(m, t[n]).Some? && Midway(t, item, n + 1, MapProperty(m, t[n]).value)
  {
    hide There, RenameId, OpenPath, Get, Put, MapProperty, PathMidway;
    var filled, placed, next := RenamingGoesThrough(t, item, n, m);
    forall k | k != t[n].id && !IsTop(t, k) ensures Lookup(next, k) == Lookup(m, k) {
      assert k != Parts(t[n])[0];
      PutElsewhere(Whole(filled), Parts(t[n]), Mapped(t, item, n).value, MapNewId, k);
    }
    KeysStep(t, item, n, m, next);
    forall i | 0 <= i < |t| && t[i].newId.Some? ensures PathMidway(t, item, n + 1, next, i) {
      MovePath(t, item, n, m, i, filled, placed, next);
    }
  }

  lemma MovePath(t: seq<Property>, item: Item, n: nat, m: Item, i: nat, filled: Item, placed: Value, next: Item)
    requires Table(t) && PrefixFree(t) && n < |t| && PathsMidway(t, item, n, m)
    requires i < |t| && t[i].newId.Some? && Renaming(t, item, n, m, filled, placed, next)
    ensures PathMidway(t, item, n + 1, next, i)
  {
    hide There, Put, OpenPath, Get;
    var v, p, q := Mapped(t, item, n).value, Parts(t[n]), Parts(t[i]);
    assert PathMidway(t, item, n, m, i);
    assert i < n ==> Unrelated(q, p);
    assert n < i ==> Unrelated(p, q);
    OpenAgree(m, filled, q);
    OpenPut(Whole(filled), p, v, MapNewId, q);
    assert placed == Whole(placed.properties);
    OpenAgree(placed.properties, next, q);
    GetAgree(placed.properties, next, q);
    if i == n {
      GetPut(Whole(filled), p, v, MapNewId);
    } else {
      PutFrame(Whole(filled), p, v, MapNewId, q);
      GetAgree(m, filled, q);
    }
  }

  /** mapProperties does not throw, and leaves the item as described. */
  lemma {:induction false} MapsMidway(t: seq<Property>, item: Item, n: nat)
    requires Table(t) && PrefixFree(t) && Clear(t, item) && n <= |t|
    ensures MapFirst(t, n, item).Some? && Midway(t, item, n, MapFirst(t, n, item).value)
  {
    hide Table, PrefixFree, Midway, MapProperty, Moves;
    if n == 0 {
      StartsMidway(t, item);
    } else {
      MapsMidway(t, item, n - 1);
      var m := MapFirst(t, n - 1, item).value;
      if Moves(t, item, n - 1) {
        MoveStep(t, item, n - 1, m);
      } else {
        StayStep(t, item, n - 1, m);
      }
    }
  }

  // ---------------------------------------------------------------- updateIds on any item

  /** What updateIds leaves at the id of a row. */
  function Written(p: Property, item: Item): Option<Value>
  {
    var v := HandleMappings(p, Found(item, p));
    if Omitted(v) then Lookup(item, p.id) else v
  }

  lemma FoundAgree(t: seq<Property>, i: nat, a: Item, b: Item)
    requires Table(t) && i < |t|
    requires t[i].newId.Some? ==> Lookup(a, Parts(t[i])[0]) == Lookup(b, Parts(t[i])[0])
    requires Lookup(a, t[i].id) == Lookup(b, t[i].id)
    ensures Found(a, t[i]) == Found(b, t[i])
  {
    PlainDeep(a, t[i].id);
    PlainDeep(b, t[i].id);
    if t[i].newId.Some? {
      DeepIsGet(a, t[i].newId.value);
      DeepIsGet(b, t[i].newId.value);
      GetAgree(a, b, Parts(t[i]));
    }
  }

  lemma {:induction false} UpdatedElsewhere(t: seq<Property>, n: nat, item: Item, name: Option<Value>, k: string)
    requires Table(t) && n <= |t| && !IsId(t, n, k)
    ensures Lookup(UpdateFirst(t, n, item, name), k) == Lookup(item, k)
  {
    hide Deep, HandleMappings, Found, Parts;
    if n > 0 {
      assert !IsId(t, n - 1, k) && t[n - 1].id != k;
      UpdatedElsewhere(t, n - 1, item, name, k);
    }
  }

  lemma {:induction false} UpdatedAt(t: seq<Property>, n: nat, item: Item, name: Option<Value>, i: nat)
    requires Table(t) && i < n <= |t|
    ensures Lookup(UpdateFirst(t, n, item, name), t[i].id) == Written(t[i], item)
  {
    hide Deep, HandleMappings, Found;
    var before := UpdateFirst(t, n - 1, item, name);
    if i < n - 1 {
      UpdatedAt(t, n - 1, item, name, i);
      assert t[i].id != t[n - 1].id;
    } else {
      assert !IsId(t, n - 1, t[i].id);
      UpdatedElsewhere(t, n - 1, item, name, t[i].id);
      if t[i].newId.Some? {
        assert !IsId(t, n - 1, Parts(t[i])[0]);
        UpdatedElsewhere(t, n - 1, item, name, Parts(t[i])[0]);
      }
      FoundAgree(t, i, before, item);
    }
  }

  lemma {:induction false} IdsCollected(t: seq<Property>, n: nat, s: string)
    requires Table(t) && n <= |t|
    ensures s in IdsToDelete(t, n) <==> exists i :: 0 <= i < n && t[i].newId == Some(s)
  {
    if n > 0 {
      IdsCollected(t, n - 1, s);
      if t[n - 1].newId.Some? {
        IdsCollected(t, n - 1, t[n - 1].newId.value);
      }
    }
  }

  lemma {:induction false} ContainersGone(item: Item, ids: seq<string>, n: nat, k: string)
    requires n <= |ids|
    ensures Lookup(WithoutContainers(item, ids, n), k) ==
      if exists j :: 0 <= j < n && Text.Split(ids[j], ".")[0] == k then None else Lookup(item, k)
  {
    if n > 0 { ContainersGone(item, ids, n - 1, k); }
  }

  /** updateIds, key by key. */
  lemma UpdatedKey(t: seq<Property>, item: Item, name: Option<Value>, k: string)
    requires Table(t)
    ensures IsTop(t, k) ==> Lookup(UpdateIds(t, item, name), k) == None
    ensures forall i | 0 <= i < |t| && t[i].id == k :: Lookup(UpdateIds(t, item, name), k) == Written(t[i], item)
    ensures !IsTop(t, k) && !IsId(t, |t|, k) ==> Lookup(UpdateIds(t, item, name), k) == Lookup(item, k)
  {
    hide Written;
    var ids := IdsToDelete(t, |t|);
    ContainersGone(UpdateFirst(t, |t|, item, name), ids, |ids|, k);
    TopsCollected(t, k);
    forall i | 0 <= i < |t| && t[i].id == k ensures Lookup(UpdateIds(t, item, name), k) == Written(t[i], item) {
      UpdatedAt(t, |t|, item, name, i);
      assert !IsTop(t, k);
    }
    if !IsId(t, |t|, k) {
      UpdatedElsewhere(t, |t|, item, name, k);
    }
  }

  lemma TopsCollected(t: seq<Property>, k: string)
    requires Table(t)
    ensures IsTop(t, k) <==>
      exists j :: 0 <= j < |IdsToDelete(t, |t|)| && Text.Split(IdsToDelete(t, |t|)[j], ".")[0] == k
  {
    var ids := IdsToDelete(t, |t|);
    if i :| 0 <= i < |t| && t[i].newId.Some? && Parts(t[i])[0] == k {
      IdsCollected(t, |t|, t[i].newId.value);
      assert t[i].newId.value in ids;
    }
    if j :| 0 <= j < |ids| && Text.Split(ids[j], ".")[0] == k {
      assert ids[j] in ids;
      IdsCollected(t, |t|, ids[j]);
    }
  }

  // ---------------------------------------------------------------- the round trip

  /** There and back again, for one row. */
  function Returned(p: Property, v: Option<Value>): Option<Value>
  {
    var w := There(p, v);
    var back := HandleMappings(p, w);
    if !Omitted(back) then back
    else if p.available && p.newId.Some? && w.Some? then None
    else w
  }

  /**
   * The values that survive: a truth property must hold one of its two texts (or nothing, if it is skipped when
   * omitted), another property must not be a qualified reference, nor null where it is renamed.
   */
  predicate Survives(p: Property, v: Option<Value>)
  {
    if !p.available then
      && (v == Some(Bool(true)) ==> !NonEmpty(p.truth))
      && (v == Some(Bool(false)) ==> !NonEmpty(p.falsehood))
      && (Omitted(v) ==> !NonEmpty(p.falsehood) || p.skipWhenOmitted)
    else if p.truth.Some? then
      if v.None? then p.skipWhenOmitted
      else
        || (NonEmpty(p.truth) && v.value == Str(p.truth.value))
        || (if NonEmpty(p.falsehood) then v.value == Str(p.falsehood.value) else v.value == Bool(false))
    else
      && (v.Some? && v.value.Str? && COMMON_PREFIX <= v.value.text ==> p.retainCommon)
      && (v == Some(Null) ==> p.newId.None?)
  }

  lemma SurvivesIff(p: Property, v: Option<Value>)
    requires p.defaultWhenOmitted.None? && (p.falsehood.Some? ==> p.truth.Some?)
    ensures Returned(p, v) == v <==> Survives(p, v)
  {
    if p.available && p.truth.None? && v.Some? && v.value.Str? && COMMON_PREFIX <= v.value.text {
      assert |v.value.text[|COMMON_PREFIX|..]| < |v.value.text|;
    }
  }

  lemma ReturnedIsWritten(t: seq<Property>, item: Item, m: Item, i: nat)
    requires Table(t) && Midway(t, item, |t|, m) && i < |t|
    ensures Written(t[i], m) == Returned(t[i], Lookup(item, t[i].id))
  {
    hide There, HandleMappings;
    PlainDeep(m, t[i].id);
    if t[i].newId.Some? {
      assert PathMidway(t, item, |t|, m, i);
      DeepIsGet(m, t[i].newId.value);
    }
  }

  predicate NoDefaults(t: seq<Property>)
  {
    forall i | 0 <= i < |t| :: t[i].defaultWhenOmitted.None? && (t[i].falsehood.Some? ==> t[i].truth.Some?)
  }

  /**
   * updateIds undoes mapProperties on an item exactly when every one of its table values survives; whatever else is
   * in the item always comes back.
   */
  lemma RoundTripIff(t: seq<Property>, item: Item, name: Option<Value>)
    requires Table(t) && PrefixFree(t) && Clear(t, item) && NoDefaults(t)
    ensures MapFirst(t, |t|, item).Some?
    ensures UpdateIds(t, MapFirst(t, |t|, item).value, name) == item
      <==> forall i | 0 <= i < |t| :: Survives(t[i], Lookup(item, t[i].id))
  {
    hide Survives, Returned, Written, There, HandleMappings, UpdateIds;
    MapsMidway(t, item, |t|);
    var m := MapFirst(t, |t|, item).value;
    var back := UpdateIds(t, m, name);
    forall i | 0 <= i < |t|
      ensures Lookup(back, t[i].id) == Lookup(item, t[i].id) <==> Survives(t[i], Lookup(item, t[i].id))
    {
      UpdatedKey(t, m, name, t[i].id);
      ReturnedIsWritten(t, item, m, i);
      SurvivesIff(t[i], Lookup(item, t[i].id));
    }
    if forall i | 0 <= i < |t| :: Survives(t[i], Lookup(item, t[i].id)) {
      forall k ensures Lookup(back, k) == Lookup(item, k) {
        UpdatedKey(t, m, name, k);
        if i :| 0 <= i < |t| && t[i].id == k {
          assert Survives(t[i], Lookup(item, t[i].id));
        }
      }
      SameFields(back, item);
    }
  }

  // ---------------------------------------------------------------- idempotence

  /** A null at the newId hides a boolean at the id that the next pass would translate. */
  predicate Hidden(p: Property, item: Item)
  {
    && Renamed(p) && Deep(item, p.newId.value) == Some(Null)
    && !Truthy(p.defaultWhenOmitted) && !(NonEmpty(p.falsehood) && !p.skipWhenOmitted)
    && (|| (Lookup(item, p.id) == Some(Bool(true)) && NonEmpty(p.truth))
        || (Lookup(item, p.id) == Some(Bool(false)) && NonEmpty(p.falsehood)))
  }

  lemma MappingsIdempotent(p: Property, v: Option<Value>)
    ensures HandleMappings(p, HandleMappings(p, v)) == HandleMappings(p, v)
  {
  }

  lemma WrittenTwice(t: seq<Property>, i: nat, item: Item, name: Option<Value>)
    requires Table(t) && i < |t|
    ensures Written(t[i], UpdateIds(t, item, name)) == Written(t[i], item) <==> !Hidden(t[i], item)
  {
    hide UpdateIds, Deep;
    var once := UpdateIds(t, item, name);
    UpdatedKey(t, item, name, t[i].id);
    PlainDeep(item, t[i].id);
    PlainDeep(once, t[i].id);
    if t[i].newId.Some? {
      UpdatedKey(t, item, name, Parts(t[i])[0]);
      assert IsTop(t, Parts(t[i])[0]);
      DeepIsGet(once, t[i].newId.value);
      assert Deep(once, t[i].newId.value).None?;
    }
    MappingsIdempotent(t[i], Found(item, t[i]));
  }

  /** Applying updateIds to what it has produced changes nothing, except for exactly those hidden booleans. */
  lemma IdempotentIff(t: seq<Property>, item: Item, name: Option<Value>)
    requires Table(t)
    ensures UpdateIds(t, UpdateIds(t, item, name), name) == UpdateIds(t, item, name)
      <==> forall i | 0 <= i < |t| :: !Hidden(t[i], item)
  {
    hide Written, UpdateIds, Hidden;
    var once := UpdateIds(t, item, name);
    var twice := UpdateIds(t, once, name);
    forall i | 0 <= i < |t| ensures Lookup(twice, t[i].id) == Lookup(once, t[i].id) <==> !Hidden(t[i], item) {
      WrittenTwice(t, i, item, name);
      UpdatedKey(t, item, name, t[i].id);
      UpdatedKey(t, once, name, t[i].id);
    }
    if forall i | 0 <= i < |t| :: !Hidden(t[i], item) {
      forall k ensures Lookup(twice, k) == Lookup(once, k) {
        UpdatedKey(t, item, name, k);
        UpdatedKey(t, once, name, k);
        if i :| 0 <= i < |t| && t[i].id == k {
          assert !Hidden(t[i], item);
        }
      }
      SameFields(twice, once);
    }
  }

  // ---------------------------------------------------------------- what a value reads like

  /** Text in Common loses its prefix unless the table retains it; other text is as it is. */
  lemma TextRead(p: Property, item: Item, text: string)
    requires p.newId.None? && p.truth.None? && p.available
    requires Lookup(item, p.id) == Some(Str(text))
    ensures var read := MapProperty(item, p);
      && read.Some? && p.id in read.value
      && (forall x: string | text == "/Common/" + x ::
            read.value[p.id] == if p.retainCommon then Str("/Common/" + x) else Str(x))
      && (!("/Common/" <= text) ==> read.value[p.id] == Str(text))
  {
    forall x: string | text == "/Common/" + x ensures text[8..] == x {}
  }

  /** A flag is true exactly when the device says its word, and is omitted only if the table says so. */
  lemma FlagRead(p: Property, item: Item, truth: string)
    requires p.newId.None? && p.truth == Some(truth) && truth != "" && p.available
    ensures var read := MapProperty(item, p);
      && read.Some?
      && (p.id in item || !p.skipWhenOmitted ==>
            Lookup(read.value, p.id) == Some(Bool(Lookup(item, p.id) == Some(Str(truth)))))
      && (p.id !in item && p.skipWhenOmitted ==> Lookup(read.value, p.id) == p.defaultWhenOmitted)
  {
  }

  // ---------------------------------------------------------------- the name

  /** The only row that is renamed to "name"; nothing else touches that property. */
  predicate NameRow(t: seq<Property>, i: nat)
  {
    && i < |t| && t[i].newId == Some("name")
    && (forall j | 0 <= j < |t| :: t[j].id != "name")
    && (forall j | 0 <= j < |t| && t[j].newId.Some? && t[j].newId.value != "name" :: Parts(t[j])[0] != "name")
  }

  lemma {:induction false} NameUpdated(t: seq<Property>, n: nat, item: Item, name: Option<Value>, i: nat)
    requires NameRow(t, i) && i < n <= |t|
    ensures Lookup(UpdateFirst(t, n, item, name), "name") == name
  {
    hide HandleMappings, Found, Parts;
    if i < n - 1 {
      NameUpdated(t, n - 1, item, name, i);
    }
  }

  lemma {:induction false} ContainersSpare(item: Item, ids: seq<string>, n: nat)
    requires n <= |ids| && forall j | 0 <= j < n :: Split(ids[j], ".")[0] != "name"
    ensures Lookup(WithoutContainers(item, ids, n), "name") == Lookup(item, "name")
  {
    if n > 0 {
      ContainersSpare(item, ids, n - 1);
    }
  }

  lemma {:induction false} IdsSpareName(t: seq<Property>, n: nat, i: nat)
    requires NameRow(t, i) && n <= |t|
    ensures forall x <- IdsToDelete(t, n) :: Split(x, ".")[0] != "name"
  {
    if n > 0 {
      IdsSpareName(t, n - 1, i);
      if NonEmpty(t[n - 1].newId) && t[n - 1].newId.value != NAME {
        assert Parts(t[n - 1]) == Split(t[n - 1].newId.value, ".");
      }
    }
  }

  /** A property that the table renames to "name" is the name of the object afterwards. */
  lemma NameAssigned(t: seq<Property>, item: Item, name: Option<Value>, i: nat)
    requires NameRow(t, i)
    ensures Lookup(UpdateIds(t, item, name), "name") == name
  {
    var ids := IdsToDelete(t, |t|);
    NameUpdated(t, |t|, item, name, i);
    IdsSpareName(t, |t|, i);
    ContainersSpare(UpdateFirst(t, |t|, item, name), ids, |ids|);
  }

  // ---------------------------------------------------------------- an input

  const SWITCH := Property("mode", Some("enabled"), Some("on"), None, false, false, true, None)

  /** An item with a null at the newId and a boolean at the id: the second pass translates the boolean. */
  lemma HiddenBoolean()
    ensures var item := map["enabled" := Null, "mode" := Bool(true)];
      UpdateIds([SWITCH], UpdateIds([SWITCH], item, None), None) != UpdateIds([SWITCH], item, None)
  {
    hide UpdateIds, Table, Hidden;
    var item := map["enabled" := Null, "mode" := Bool(true)];
    SwitchTable();
    SwitchHidden();
    assert Hidden([SWITCH][0], item);
    IdempotentIff([SWITCH], item, None);
  }

  lemma SwitchTable()
    ensures Table([SWITCH])
  {
    SplitAtom("enabled", ".");
    hide Split;
    assert Parts(SWITCH) == ["enabled"];
    assert "enabled"[0] != "mode"[0] && "enabled"[0] != NAME[0];
  }

  lemma SwitchHidden()
    ensures Hidden(SWITCH, map["enabled" := Null, "mode" := Bool(true)])
  {
    hide Split, Deep;
    PlainDeep(map["enabled" := Null, "mode" := Bool(true)], "enabled");
    assert "enabled"[0] != "mode"[0];
  }
}
