/**
 * What the update and the delete declaration say, taken at their word: every object to write is written, every object
 * to delete goes, and an empty class to delete stands for all of it. What the delete handler makes of the delete
 * declaration is the subject of Reconcile.
 */
module DiffTheorems {
  import opened Prelude
  import opened Json
  import opened DiffHandler

  // ---------------------------------------------------------------- the declarations at their word

  /** Writing the non-empty bodies of one class: a named class object by object, any other class as a whole. */
  function Written(named: bool, current: Option<Json>, update: Option<Json>): Option<Json>
  {
    if update.None? || IsEmpty(update) then current
    else if named && update.value.Obj? then
      var bodies := update.value.fields;
      var kept := if current.Some? && current.value.Obj? then current.value.fields else map[];
      Some(Obj(kept + map n | n in bodies && bodies[n] != EMPTY :: bodies[n]))
    else update
  }

  /** Removing what the delete declaration names; an empty class stands for all of it. */
  function Removed(current: Option<Json>, delete: Option<Json>): Option<Json>
  {
    if delete.None? then current
    else if delete.value == EMPTY then None
    else if current.Some? && current.value.Obj? && delete.value.Obj? then
      Some(Obj(map n | n in current.value.fields && n !in delete.value.fields :: current.value.fields[n]))
    else current
  }

  function DescribedClass(cs: Classes, device: map<string, Json>, up: map<string, Json>, del: map<string, Json>,
                          c: string): Option<Json>
  {
    Removed(Written(cs.Named(c), Lookup(device, c), Lookup(up, c)), Lookup(del, c))
  }

  /** The configuration the two declarations describe. */
  function Described(cs: Classes, device: map<string, Json>, up: map<string, Json>, del: map<string, Json>)
    : map<string, Json>
  {
    map c | c in device.Keys + up.Keys && DescribedClass(cs, device, up, del, c).Some? ::
      DescribedClass(cs, device, up, del, c).value
  }

  lemma DescribedAt(cs: Classes, device: map<string, Json>, up: map<string, Json>, del: map<string, Json>, c: string)
    ensures Lookup(Described(cs, device, up, del), c) == DescribedClass(cs, device, up, del, c)
  {
  }

  // ---------------------------------------------------------------- they describe the target

  /**
   * What a caller can check before: the class is unchanged, or its target is not an empty body. An emptied class
   * is still described when the device holds objects of it, because each of them is deleted by name.
   */
  predicate Describable(named: bool, f: Option<Json>, t: Option<Json>)
  {
    || f == t
    || t.None?
    || (&& t.value != Arr([])
        && (t.value == EMPTY ==> f.Some? && f.value.Obj?)
        && (named && t.value.Obj? ==>
              forall n <- t.value.fields :: t.value.fields[n] == EMPTY ==> Field(f, n) == Some(EMPTY)))
  }

  /** What the device holds of a named class afterwards, name by name. */
  lemma NamedClassAfter(f: Option<Json>, t: Json)
    requires t.Obj? && f != Some(t) && ClassShape(true, f)
    requires t == EMPTY ==> f.Some? && f.value.Obj?
    ensures var r := Removed(Written(true, f, UpdateOf(true, f, Some(t))), DeleteOf(f, Some(t)));
      && r.Some? && r.value.Obj?
      && forall n :: Lookup(r.value.fields, n) ==
           if n !in t.fields then None else if t.fields[n] != EMPTY then Some(t.fields[n]) else Field(f, n)
  {
    var u := UpdateOf(true, f, Some(t));
    var w := Written(true, f, u);
    var r := Removed(w, DeleteOf(f, Some(t)));
    if u.value == EMPTY {
      NothingToUpdate(f, t);
    }
    forall n ensures Lookup(u.value.fields, n) ==
      if n in KeysOf(f) + t.fields.Keys && Field(f, n) != Lookup(t.fields, n)
      then Some(if n in t.fields then t.fields[n] else EMPTY) else None
    {
    }
    forall n ensures Field(w, n) ==
      if n in t.fields && t.fields[n] != EMPTY then Some(t.fields[n]) else Field(f, n)
    {
    }
    assert w.Some? && w.value.Obj?;
    RemovedNames(w, f, t);
    hide UpdateOf, Written, Removed, DeleteOf;
  }

  /** Deleting by name, from an object class. */
  lemma RemovedNames(w: Option<Json>, f: Option<Json>, t: Json)
    requires w.Some? && w.value.Obj? && t.Obj?
    ensures var r := Removed(w, DeleteOf(f, Some(t)));
      && r.Some? && r.value.Obj?
      && forall n :: Lookup(r.value.fields, n) == if n in KeysOf(f) - t.fields.Keys then None else Field(w, n)
  {
    DeletedNames(f, t);
  }

  lemma NamedClassDescribed(f: Option<Json>, t: Json)
    requires t.Obj? && f != Some(t) && ClassShape(true, f)
    requires t == EMPTY ==> f.Some? && f.value.Obj?
    ensures var r := Removed(Written(true, f, UpdateOf(true, f, Some(t))), DeleteOf(f, Some(t)));
      (r == Some(t)) <==> (forall n <- t.fields :: t.fields[n] == EMPTY ==> Field(f, n) == Some(EMPTY))
  {
    NamedClassAfter(f, t);
    hide UpdateOf, Written, Removed, DeleteOf, ClassShape;
    var r := Removed(Written(true, f, UpdateOf(true, f, Some(t))), DeleteOf(f, Some(t)));
    if forall n <- t.fields :: t.fields[n] == EMPTY ==> Field(f, n) == Some(EMPTY) {
      SameFields(r.value.fields, t.fields);
    } else {
      var n :| n in t.fields && t.fields[n] == EMPTY && Field(f, n) != Some(EMPTY);
      assert Lookup(r.value.fields, n) != Some(t.fields[n]);
    }
  }

  lemma NothingToUpdate(f: Option<Json>, t: Json)
    requires t.Obj? && f != Some(t) && UpdateOf(true, f, Some(t)) == Some(EMPTY)
    ensures t == EMPTY && !(f.Some? && f.value.Obj?)
  {
    forall n | n in KeysOf(f) + t.fields.Keys ensures Field(f, n) == Lookup(t.fields, n) {
      assert n in KeysOf(UpdateOf(true, f, Some(t))) <==> Field(f, n) != Lookup(t.fields, n);
    }
    if f.Some? && f.value.Obj? {
      forall n ensures Lookup(f.value.fields, n) == Lookup(t.fields, n) {
        assert n in KeysOf(f) + t.fields.Keys ==> Field(f, n) == Lookup(t.fields, n);
      }
      SameFields(f.value.fields, t.fields);
    } else {
      forall n ensures n !in t.fields {
        assert n in t.fields ==> Field(f, n) == Lookup(t.fields, n);
      }
    }
  }

  /** Outside the object-by-object classes the class is replaced as a whole. */
  lemma WholeClassDescribed(named: bool, f: Option<Json>, t: Json)
    requires f != Some(t) && ClassShape(named, Some(t)) && !(named && t.Obj?)
    ensures var r := Removed(Written(named, f, UpdateOf(named, f, Some(t))), DeleteOf(f, Some(t)));
      (r == Some(t)) <==> (t != Arr([]) && (t == EMPTY ==> f.Some? && f.value.Obj?))
  {
    var r := Removed(Written(named, f, UpdateOf(named, f, Some(t))), DeleteOf(f, Some(t)));
    if t.Obj? {
      DeletedNames(f, t);
      forall n ensures t != EMPTY || (f.Some? && f.value.Obj?) ==> Field(r, n) == Lookup(t.fields, n) {
        if t == EMPTY && n in KeysOf(f) {
          assert n in KeysOf(DeleteOf(f, Some(t)));
        }
      }
      if t != EMPTY || (f.Some? && f.value.Obj?) {
        SameFields(r.value.fields, t.fields);
      }
    }
  }

  /** One class of truth is described exactly. */
  lemma ClassDescribed(named: bool, f: Option<Json>, t: Option<Json>)
    requires ClassShape(named, f) && ClassShape(named, t)
    ensures Removed(Written(named, f, UpdateOf(named, f, t)), DeleteOf(f, t)) == t <==> Describable(named, f, t)
  {
    if t.Some? && f != t {
      if named && t.value.Obj? {
        if t.value != EMPTY || (f.Some? && f.value.Obj?) {
          NamedClassDescribed(f, t.value);
        } else {
          DeletedNames(f, t.value);
        }
      } else {
        WholeClassDescribed(named, f, t.value);
      }
    } else if t.Some? && f == t {
      if f.value.Obj? { DeletedNames(f, t.value); }
    }
  }

  /**
   * Taken at their word, the two declarations describe the target of a class of truth exactly when the target can be
   * told apart from "nothing to write".
   */
  lemma TargetDescribed(cs: Classes, from: map<string, Json>, to: map<string, Json>, c: string)
    requires Shaped(cs, from) && Shaped(cs, to) && c in cs.truth
    ensures Lookup(Described(cs, from, ToUpdate(cs, to, from), ToDelete(cs, to, from)), c) == Lookup(to, c)
      <==> Describable(cs.Named(c), Lookup(from, c), Lookup(to, c))
  {
    hide Written, Removed, UpdateOf, DeleteOf, Describable;
    DescribedAt(cs, from, ToUpdate(cs, to, from), ToDelete(cs, to, from), c);
    assert ClassShape(cs.Named(c), Lookup(from, c)) && ClassShape(cs.Named(c), Lookup(to, c));
    ClassDescribed(cs.Named(c), Lookup(from, c), Lookup(to, c));
  }

  /** No class of truth is an empty body, and no named object is. */
  ghost predicate NoEmptyBodies(cs: Classes, common: map<string, Json>)
  {
    forall c <- cs.truth | c in common ::
      && !IsEmpty(Some(common[c]))
      && (cs.Named(c) && common[c].Obj? ==> forall n <- common[c].fields :: common[c].fields[n] != EMPTY)
  }

  /** In particular every target without empty bodies, from wherever the device starts. */
  lemma NonEmptyTargetDescribed(cs: Classes, from: map<string, Json>, to: map<string, Json>, c: string)
    requires Shaped(cs, from) && Shaped(cs, to) && NoEmptyBodies(cs, to) && c in cs.truth
    ensures Lookup(Described(cs, from, ToUpdate(cs, to, from), ToDelete(cs, to, from)), c) == Lookup(to, c)
  {
    TargetDescribed(cs, from, to, c);
  }

  // ---------------------------------------------------------------- minimality

  /** Diffing against the configuration that is already there touches no class of truth, whatever else is in it. */
  lemma NothingToDo(cs: Classes, from: map<string, Json>, to: map<string, Json>)
    ensures (forall c <- cs.truth :: Lookup(from, c) == Lookup(to, c))
      <==> (ToDelete(cs, to, from) == map[] && forall c <- ToUpdate(cs, to, from) :: c !in cs.truth)
  {
    if forall c <- cs.truth :: Lookup(from, c) == Lookup(to, c) {
      forall c <- cs.truth ensures c !in ToDelete(cs, to, from) && c !in ToUpdate(cs, to, from) {
        SameClass(cs, from, to, c);
      }
    } else {
      var c :| c in cs.truth && Lookup(from, c) != Lookup(to, c);
      assert UpdateOf(cs.Named(c), Lookup(from, c), Lookup(to, c)).Some?;
      assert c in ToUpdate(cs, to, from);
    }
  }

  /** An empty class in the delete declaration is unambiguous: the whole class vanished. */
  lemma EmptyDeleteMeansAll(cs: Classes, from: map<string, Json>, to: map<string, Json>, c: string)
    requires c in cs.truth
    ensures Lookup(ToDelete(cs, to, from), c) == Some(EMPTY) <==> c in from && c !in to
  {
    if c in to && to[c].Obj? {
      DeletedNames(Lookup(from, c), to[c]);
    }
  }

}
