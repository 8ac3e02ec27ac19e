/**
 * Carrying out both declarations on the device: the update declaration body by body, where a new list gets a namesake,
 * and the delete declaration by the delete handler, with its own list of classes, its retained objects, and its way
 * with empty classes.
 */
module Reconcile {
  import opened Prelude
  import opened Json
  import opened DiffHandler
  import opened DiffTheorems
  import opened ClassNames
  import opened ListFixes
  import Del = DeleteHandler
  import DeleteTheorems

  // ---------------------------------------------------------------- what the code does not decide

  /** The order in which `Object.keys` lists property names, and what the namesake of a new list reads like. */
  datatype Environment = Environment(list: set<string> -> seq<string>, namesake: Json -> Json)

  ghost predicate Regular(env: Environment)
  {
    && (forall names, n :: n in env.list(names) <==> n in names)
    && (forall names, i, j | 0 <= i < j < |env.list(names)| :: env.list(names)[i] != env.list(names)[j])
    && (forall body :: env.namesake(body).Obj? && env.namesake(body) != EMPTY)
  }

  // ---------------------------------------------------------------- writing

  /** A list that is new on the device gets a namesake in the other class, unless there is one. */
  function WithNamesakes(env: Environment, own: Option<Json>, other: Option<Json>): Option<Json>
  {
    var more := set n | n in KeysOf(other) && Field(other, n) != Some(EMPTY) && n !in KeysOf(own);
    if more == {} then own
    else
      var fields := if own.Some? && own.value.Obj? then own.value.fields else map[];
      Some(Obj(fields + map n | n in more :: env.namesake(other.value.fields[n])))
  }

  /** One class of the device once the update declaration has been written. */
  function WrittenClass(env: Environment, cs: Classes, device: map<string, Json>, up: map<string, Json>, c: string)
    : Option<Json>
  {
    var own := Written(cs.Named(c), Lookup(device, c), Lookup(up, c));
    if NamesakeOf(c).None? then own else WithNamesakes(env, own, Lookup(up, NamesakeOf(c).value))
  }

  function WrittenAll(env: Environment, cs: Classes, device: map<string, Json>, up: map<string, Json>)
    : map<string, Json>
  {
    var lists := set c: Del.Class | Del.Partner(c).Some? :: NameOf(c);
    map c | c in device.Keys + up.Keys + lists && WrittenClass(env, cs, device, up, c).Some? ::
      WrittenClass(env, cs, device, up, c).value
  }

  // ---------------------------------------------------------------- deleting

  /** The names of a declaration, by class. */
  function NamesIn(env: Environment, common: map<string, Json>): Del.Names
  {
    map c: Del.Class | NameOf(c) in common :: env.list(KeysOf(Some(common[NameOf(c)])))
  }

  function ObjectsIn(common: map<string, Json>): set<Del.Object>
  {
    set c: Del.Class, n | NameOf(c) in common && n in KeysOf(Some(common[NameOf(c)])) :: Del.Object(c, n)
  }

  /** One class of the device, reduced to the objects that are left. */
  function Left(named: bool, c: string, j: Json, device: set<Del.Object>): Json
  {
    if named && ClassOf(c).Some? && j.Obj? then
      Obj(map n | n in j.fields && Del.Object(ClassOf(c).value, n) in device :: j.fields[n])
    else j
  }

  // ---------------------------------------------------------------- a run

  /** The current configuration the diff sees, which is also state.currentConfig by then. */
  function Compared(to: map<string, Json>, device: map<string, Json>): map<string, Json>
  {
    Pruned(Unshadowed(to, device))
  }

  function WrittenRun(env: Environment, cs: Classes, device: map<string, Json>, to: map<string, Json>)
    : map<string, Json>
  {
    WrittenAll(env, cs, device, ToUpdate(cs, to, Compared(to, device)))
  }

  /** What the delete handler is asked for. */
  function Request(env: Environment, cs: Classes, device: map<string, Json>, to: map<string, Json>): Del.Names
  {
    NamesIn(env, ToDelete(cs, to, Compared(to, device)))
  }

  /** What the delete handler starts from. */
  function Starting(env: Environment, cs: Classes, device: map<string, Json>, to: map<string, Json>): Del.World
  {
    Del.World(ObjectsIn(WrittenRun(env, cs, device, to)), {}, NamesIn(env, Compared(to, device)), [])
  }

  /** The device after both declarations; None if the delete handler does not get through. */
  function Carried(env: Environment, cs: Classes, device: map<string, Json>, to: map<string, Json>)
    : Option<map<string, Json>>
  {
    var written := WrittenRun(env, cs, device, to);
    var after := Del.Processed(Request(env, cs, device, to), Starting(env, cs, device, to));
    if after.None? then None
    else Some(map c | c in written :: Left(cs.Named(c), c, written[c], after.value.device))
  }

  // ---------------------------------------------------------------- declarations as the handlers see them

  /** Classes that are empty have been removed. */
  function Pruned(common: map<string, Json>): map<string, Json>
  {
    map c | c in common && !IsEmpty(Some(common[c])) :: common[c]
  }

  function PrunedClass(j: Option<Json>): Option<Json>
  {
    if IsEmpty(j) then None else j
  }

  /** The tables name the delete handler's classes as named classes of truth; DeviceGroup is not one of truth. */
  ghost predicate Usual(cs: Classes)
  {
    forall c: Del.Class :: cs.Named(NameOf(c)) && (NameOf(c) in cs.truth || c.DeviceGroup?)
  }

  /** Without empty classes, and with objects by name in every named class. */
  ghost predicate Prepared(cs: Classes, common: map<string, Json>)
  {
    && Shaped(cs, common)
    && (forall c <- common :: !IsEmpty(Some(common[c])))
    && (forall c <- cs.truth | c in common && cs.Named(c) :: common[c].Obj?)
  }

  /** Absent, or a non-empty class of objects by name. */
  predicate ObjectsByName(j: Option<Json>)
  {
    j.None? || (j.value.Obj? && j.value != EMPTY)
  }

  lemma PreparedClass(cs: Classes, common: map<string, Json>, c: string)
    requires Prepared(cs, common) && c in cs.truth
    ensures ClassShape(cs.Named(c), Lookup(common, c)) && PrunedClass(Lookup(common, c)) == Lookup(common, c)
    ensures cs.Named(c) ==> ObjectsByName(Lookup(common, c))
  {
  }

  // ---------------------------------------------------------------- what the diff sees

  lemma ComparedClass(to: map<string, Json>, device: map<string, Json>, c: string)
    ensures NamesakeOf(c).None? && PrunedClass(Lookup(device, c)) == Lookup(device, c) ==>
      Lookup(Compared(to, device), c) == Lookup(device, c)
    ensures forall n ::
      Field(Lookup(Compared(to, device), c), n)
      == if n in Shadowed(to, c) then None else Field(Lookup(device, c), n)
    ensures ObjectsByName(Lookup(device, c)) ==> ObjectsByName(Lookup(Compared(to, device), c))
    ensures c in Compared(to, device) ==> c in device && !IsEmpty(Lookup(Compared(to, device), c))
    ensures forall named :: ClassShape(named, Lookup(device, c)) ==> ClassShape(named, Lookup(Compared(to, device), c))
  {
    hide NamesakeOf;
    if c in device {
      WithoutNothing(device[c]);
      assert Lookup(Unshadowed(to, device), c) == Some(WithoutNames(device[c], Shadowed(to, c)));
      forall n ensures Field(Lookup(Compared(to, device), c), n)
        == if n in Shadowed(to, c) then None else Field(Lookup(device, c), n)
      {
        assert n in KeysOf(Lookup(Unshadowed(to, device), c))
          <==> n in KeysOf(Some(device[c])) && n !in Shadowed(to, c);
      }
    }
  }

  lemma ComparedPrepared(cs: Classes, to: map<string, Json>, device: map<string, Json>)
    requires Prepared(cs, device)
    ensures Prepared(cs, Compared(to, device))
  {
    hide Compared, NamesakeOf;
    forall c { ComparedClass(to, device, c); }
    forall c <- cs.truth ensures ClassShape(cs.Named(c), Lookup(Compared(to, device), c)) {
      assert ClassShape(cs.Named(c), Lookup(device, c));
    }
    forall c <- cs.truth | c in Compared(to, device) && cs.Named(c) ensures Compared(to, device)[c].Obj? {
      PreparedClass(cs, device, c);
    }
  }

  // ---------------------------------------------------------------- the written device, name by name

  /** The update declaration puts this object in place. */
  predicate Puts(f: Option<Json>, t: Option<Json>, n: string)
  {
    Field(t, n).Some? && Field(t, n) != Some(EMPTY) && Field(t, n) != Field(f, n)
  }

  lemma PutsIff(f: Option<Json>, t: Option<Json>, n: string)
    requires ObjectsByName(f) && ObjectsByName(t)
    ensures var up := Field(UpdateOf(true, f, t), n);
      && (Puts(f, t, n) <==> up.Some? && up != Some(EMPTY))
      && (Puts(f, t, n) ==> up == Field(t, n))
    ensures var u := UpdateOf(true, f, t); u.Some? ==> u.value.Obj?
  {
    if t.Some? && f != t {
      assert Field(UpdateOf(true, f, t), n) == if n in KeysOf(f) + KeysOf(t) && Field(f, n) != Field(t, n)
        then Some(if n in KeysOf(t) then t.value.fields[n] else EMPTY) else None;
    }
  }

  /** Writing a named class keeps the device's names and puts every new non-empty body in place. */
  lemma WrittenField(d: Option<Json>, f: Option<Json>, t: Option<Json>, n: string)
    requires ObjectsByName(d) && ObjectsByName(f) && ObjectsByName(t)
    ensures var w := Written(true, d, UpdateOf(true, f, t));
      && (d == f ==> (w.None? <==> f.None? && t.None?)) && (w.Some? ==> w.value.Obj?)
      && Field(w, n) == if Puts(f, t, n) then Field(t, n) else Field(d, n)
  {
    PutsIff(f, t, n);
    if t.Some? && f != t && UpdateOf(true, f, t).value == EMPTY {
      NothingToUpdate(f, t.value);
    }
    hide UpdateOf;
  }

  lemma NamesakeField(env: Environment, own: Option<Json>, other: Option<Json>, n: string)
    requires (own.Some? ==> own.value.Obj?) && (other.Some? ==> other.value.Obj?)
    ensures var w := WithNamesakes(env, own, other);
      && (w.Some? ==> w.value.Obj?)
      && Field(w, n) == if Field(own, n).Some? then Field(own, n)
                        else if Field(other, n).Some? && Field(other, n) != Some(EMPTY)
                        then Some(env.namesake(Field(other, n).value)) else None
  {
    var more := set m | m in KeysOf(other) && Field(other, m) != Some(EMPTY) && m !in KeysOf(own);
    assert n in more <==> Field(other, n).Some? && Field(other, n) != Some(EMPTY) && Field(own, n).None?;
  }

  /** The written class, for a class with objects by name. */
  function WrittenBody(env: Environment, cs: Classes, device: map<string, Json>, to: map<string, Json>, c: string,
                       n: string): Option<Json>
  {
    var from := Compared(to, device);
    if Puts(Lookup(from, c), Lookup(to, c), n) then Field(Lookup(to, c), n)
    else if Field(Lookup(device, c), n).Some? || NamesakeOf(c).None? then Field(Lookup(device, c), n)
    else
      var q := NamesakeOf(c).value;
      if Puts(Lookup(from, q), Lookup(to, q), n) then Some(env.namesake(Field(Lookup(to, q), n).value)) else None
  }

  lemma WrittenLookup(env: Environment, cs: Classes, device: map<string, Json>, up: map<string, Json>, c: string)
    ensures Lookup(WrittenAll(env, cs, device, up), c) == WrittenClass(env, cs, device, up, c)
  {
    ClassOfName(c);
  }

  lemma UpdateLookup(cs: Classes, to: map<string, Json>, from: map<string, Json>, c: string)
    requires c in cs.truth
    ensures Lookup(ToUpdate(cs, to, from), c) == UpdateOf(cs.Named(c), Lookup(from, c), Lookup(to, c))
  {
  }

  lemma WrittenAt(env: Environment, cs: Classes, device: map<string, Json>, to: map<string, Json>, c: string, n: string)
    requires Usual(cs) && Prepared(cs, device) && Prepared(cs, to) && c in cs.truth && cs.Named(c)
    ensures var w := Lookup(WrittenRun(env, cs, device, to), c);
      (w.Some? ==> w.value.Obj?) && Field(w, n) == WrittenBody(env, cs, device, to, c, n)
  {
    hide NamesakeOf, NameOf, Written, UpdateOf, ToUpdate, WrittenAll, Compared, WithNamesakes, Prepared;
    var from := Compared(to, device);
    var up := ToUpdate(cs, to, from);
    ComparedPrepared(cs, to, device);
    WrittenLookup(env, cs, device, up, c);
    WrittenOwn(cs, device, to, c, n);
    if NamesakeOf(c).Some? {
      var q := NamesakeOf(c).value;
      NamesakeClass(c);
      assert cs.Named(q) && q in cs.truth;
      UpdateLookup(cs, to, from, q);
      PreparedClass(cs, from, q);
      PreparedClass(cs, to, q);
      PutsIff(Lookup(from, q), Lookup(to, q), n);
      NamesakeField(env, Written(true, Lookup(device, c), Lookup(up, c)), Lookup(up, q), n);
    }
  }

  lemma WrittenOwn(cs: Classes, device: map<string, Json>, to: map<string, Json>, c: string, n: string)
    requires Prepared(cs, device) && Prepared(cs, to) && c in cs.truth && cs.Named(c)
    ensures var from := Compared(to, device);
      var w := Written(true, Lookup(device, c), Lookup(ToUpdate(cs, to, from), c));
      && (w.Some? ==> w.value.Obj?)
      && Field(w, n) ==
           if Puts(Lookup(from, c), Lookup(to, c), n) then Field(Lookup(to, c), n) else Field(Lookup(device, c), n)
  {
    hide Written, UpdateOf, ToUpdate, Compared, Prepared;
    var from := Compared(to, device);
    ComparedPrepared(cs, to, device);
    UpdateLookup(cs, to, from, c);
    PreparedClass(cs, device, c);
    PreparedClass(cs, from, c);
    PreparedClass(cs, to, c);
    WrittenField(Lookup(device, c), Lookup(from, c), Lookup(to, c), n);
  }

  // ---------------------------------------------------------------- the delete request, class by class

  /** The names that vanish. */
  function Gone(f: Option<Json>, t: Option<Json>): set<string> { KeysOf(f) - KeysOf(t) }

  lemma DeleteKeys(f: Option<Json>, t: Option<Json>)
    requires ObjectsByName(f) && ObjectsByName(t)
    ensures DeleteOf(f, t).None? <==> Gone(f, t) == {}
    ensures DeleteOf(f, t).Some? ==> KeysOf(DeleteOf(f, t)) == if t.Some? then Gone(f, t) else {}
  {
    if t.Some? {
      DeletedNames(f, t.value);
    }
    if f.Some? {
      NoKeys(f.value);
    }
  }

  /** What the delete handler is asked for: the vanishing names, in every class. */
  lemma WantedNames(env: Environment, cs: Classes, from: map<string, Json>, to: map<string, Json>,
                    c: Del.Class, n: string)
    requires Regular(env) && Usual(cs) && Prepared(cs, from) && Prepared(cs, to)
    ensures var request := NamesIn(env, ToDelete(cs, to, from));
      && (c in request ==> c in NamesIn(env, from))
      && (n in Del.Wanted(request, NamesIn(env, from), c)
          <==> NameOf(c) in cs.truth && n in Gone(Lookup(from, NameOf(c)), Lookup(to, NameOf(c))))
      && (n in Del.NamesOf(request, c)
          <==> NameOf(c) in cs.truth && NameOf(c) in to && n in Gone(Lookup(from, NameOf(c)), Lookup(to, NameOf(c))))
  {
    var name := NameOf(c);
    var del := ToDelete(cs, to, from);
    hide NameOf;
    if name in cs.truth {
      var f, t := Lookup(from, name), Lookup(to, name);
      PreparedClass(cs, from, name);
      PreparedClass(cs, to, name);
      DeleteKeys(f, t);
      assert Lookup(del, name) == DeleteOf(f, t);
      if name in del && KeysOf(Some(del[name])) != {} {
        var k :| k in KeysOf(Some(del[name]));
        assert k in env.list(KeysOf(Some(del[name])));
      }
      if name in del && KeysOf(Some(del[name])) == {} {
        ListsNothing(env);
      }
    }
  }

  lemma ListsNothing(env: Environment)
    requires Regular(env)
    ensures env.list({}) == []
  {
    NoMembers(env.list({}));
  }

  lemma NoMembers(names: seq<string>)
    ensures (forall n :: n !in names) <==> names == []
  {
    if names != [] {
      assert names[0] in names;
    }
  }

  lemma NoKeys(j: Json)
    requires j.Obj?
    ensures j.fields.Keys == {} <==> j == EMPTY
  {
    if j.fields.Keys == {} {
      assert j.fields == map[];
    }
  }

  // ---------------------------------------------------------------- the delete handler gets through

  /** Every name the run starts from is on the device when the delete handler sets to work. */
  lemma StillOnDevice(env: Environment, cs: Classes, device: map<string, Json>, to: map<string, Json>,
                      c: Del.Class, n: string)
    requires Regular(env) && Usual(cs) && Prepared(cs, device) && Prepared(cs, to) && NameOf(c) in cs.truth
    ensures var w := Starting(env, cs, device, to);
      var from := Lookup(Compared(to, device), NameOf(c));
      && (n in Del.NamesOf(w.config, c) <==> n in KeysOf(from))
      && (n in KeysOf(from) ==> Del.Object(c, n) in w.device)
  {
    hide NameOf, WrittenRun, Prepared, Compared;
    ComparedClass(to, device, NameOf(c));
    WrittenAt(env, cs, device, to, NameOf(c), n);
    if n in KeysOf(Lookup(Compared(to, device), NameOf(c))) {
      assert Field(Lookup(Compared(to, device), NameOf(c)), n).Some?;
      assert Field(Lookup(WrittenRun(env, cs, device, to), NameOf(c)), n).Some?;
    }
  }

  lemma GetsThrough(env: Environment, cs: Classes, device: map<string, Json>, to: map<string, Json>)
    requires Regular(env) && Usual(cs) && Prepared(cs, device) && Prepared(cs, to)
    ensures DeleteTheorems.Consistent(Starting(env, cs, device, to))
    ensures Del.Processed(Request(env, cs, device, to), Starting(env, cs, device, to)).Some?
  {
    hide NameOf, Del.Retained, WrittenRun, Compared, ToDelete, NamesIn, Del.Processed, Prepared;
    var w := Starting(env, cs, device, to);
    var request := Request(env, cs, device, to);
    ComparedPrepared(cs, to, device);
    forall p, n | Del.Partner(p).Some? && n in Del.NamesOf(w.config, p)
      ensures Del.Object(p, n) in w.device || Del.Object(Del.Partner(p).value, n) !in w.device
    {
      StillOnDevice(env, cs, device, to, p, n);
    }
    forall c: Del.Class | c !in Del.GSLB_CLASSES ensures DeleteTheorems.ClassReady(request, w, c) {
      RequestReady(env, cs, device, to, c);
    }
    forall c <- Del.GSLB_CLASSES, n <- Del.NamesOf(request, c) ensures Del.Object(c, n) in w.device {
      WantedNames(env, cs, Compared(to, device), to, c, n);
      StillOnDevice(env, cs, device, to, c, n);
    }
    DeleteTheorems.GetsThroughIff(request, w);
  }

  lemma RequestReady(env: Environment, cs: Classes, device: map<string, Json>, to: map<string, Json>, c: Del.Class)
    requires Regular(env) && Usual(cs) && Prepared(cs, device) && Prepared(cs, to)
    ensures DeleteTheorems.ClassReady(Request(env, cs, device, to), Starting(env, cs, device, to), c)
  {
    hide NameOf, Del.Retained, WrittenRun, Compared, ToDelete, NamesIn, Del.Wanted;
    var w := Starting(env, cs, device, to);
    var request := Request(env, cs, device, to);
    ComparedPrepared(cs, to, device);
    WantedNames(env, cs, Compared(to, device), to, c, "");
    forall n <- Del.Wanted(request, w.config, c)
      ensures Del.Object(c, n) in w.device && n in Del.NamesOf(w.config, c)
    {
      WantedNames(env, cs, Compared(to, device), to, c, n);
      StillOnDevice(env, cs, device, to, c, n);
    }
  }

  // ---------------------------------------------------------------- one class after both declarations

  /** Whether the delete handler takes away an object that vanishes from the declaration. */
  predicate Deletes(c: string, t: Option<Json>, n: string)
  {
    && ClassOf(c).Some? && !Del.Retained(ClassOf(c).value, n)
    && (ClassOf(c).value in Del.GSLB_CLASSES ==> t.Some?)
  }

  /** Whether the delete handler takes this object away, on behalf of its own class or of its namesake's. */
  predicate Takes(device: map<string, Json>, to: map<string, Json>, c: string, n: string)
  {
    var from := Compared(to, device);
    || (n in Gone(Lookup(from, c), Lookup(to, c)) && Deletes(c, Lookup(to, c), n))
    || (NamesakeOf(c).Some? && n in Gone(Lookup(from, NamesakeOf(c).value), Lookup(to, NamesakeOf(c).value)))
  }

  /** The own handlers of the other two classes replace objects. */
  predicate Handled(c: string) { c != "RoutingBGP" && c != "ManagementIp" }

  /** Not a class of lists either. */
  predicate Ordinary(c: string) { Handled(c) && NamesakeOf(c).None? }

  /** What is left of a class, in closed form. */
  function ClassAfter(named: bool, c: string, f: Option<Json>, t: Option<Json>): Option<Json>
  {
    var w := Written(named, f, UpdateOf(named, f, t));
    if named && w.Some? && w.value.Obj? then
      Some(Obj(map n | n in w.value.fields && !(n in Gone(f, t) && Deletes(c, t, n)) :: w.value.fields[n]))
    else w
  }

  lemma SingleLeft(env: Environment, cs: Classes, device: map<string, Json>, to: map<string, Json>, c: string,
                   n: string)
    requires Regular(env) && Usual(cs) && Prepared(cs, device) && Prepared(cs, to)
    requires c in cs.truth && ClassOf(c).Some? && NamesakeOf(c).None?
    ensures var w := Starting(env, cs, device, to);
      var after := Del.Processed(Request(env, cs, device, to), w);
      after.Some? && (Del.Object(ClassOf(c).value, n) in w.device ==>
        (Del.Object(ClassOf(c).value, n) !in after.value.device <==> Takes(device, to, c, n)))
  {
    hide DeleteTheorems.DEVICE_OBJECTS, NameOf, ClassOf, Del.Retained, WrittenRun, Compared, ToDelete, NamesIn;
    hide DeleteTheorems.Consistent, Del.Wanted, Del.Processed, Prepared;
    var w := Starting(env, cs, device, to);
    var request := Request(env, cs, device, to);
    var p := ClassOf(c).value;
    ClassOfName(c);
    ComparedPrepared(cs, to, device);
    GetsThrough(env, cs, device, to);
    WantedNames(env, cs, Compared(to, device), to, p, n);
    var o := Del.Object(p, n);
    DeleteTheorems.RetainedIff(p, n);
    if o in w.device {
      if p in Del.GSLB_CLASSES {
        DeleteTheorems.NeverRetained(o);
        DeleteTheorems.GslbOnlyByName(request, w, o);
      } else {
        DeleteTheorems.ExactlyGone(request, w, p, n);
      }
    }
  }

  lemma ListLeft(env: Environment, cs: Classes, device: map<string, Json>, to: map<string, Json>, c: string, n: string)
    requires Regular(env) && Usual(cs) && Prepared(cs, device) && Prepared(cs, to)
    requires c in cs.truth && NamesakeOf(c).Some?
    ensures var w := Starting(env, cs, device, to);
      var after := Del.Processed(Request(env, cs, device, to), w);
      after.Some? && (Del.Object(ClassOf(c).value, n) in w.device ==>
        (Del.Object(ClassOf(c).value, n) !in after.value.device <==> Takes(device, to, c, n)))
  {
    NamesakeClass(c);
    DeletesLists(c, Lookup(to, c), n);
    hide NameOf, ClassOf, NamesakeOf, Del.Retained, WrittenRun, Compared, ToDelete, NamesIn, Del.Wanted, Del.Processed;
    hide DeleteTheorems.Consistent, Prepared;
    var w := Starting(env, cs, device, to);
    var p, q := ClassOf(c).value, ClassOf(NamesakeOf(c).value).value;
    assert NameOf(q) in cs.truth;
    ComparedPrepared(cs, to, device);
    GetsThrough(env, cs, device, to);
    WantedNames(env, cs, Compared(to, device), to, p, n);
    WantedNames(env, cs, Compared(to, device), to, q, n);
    StillOnDevice(env, cs, device, to, q, n);
    if Del.Object(p, n) in w.device {
      DeleteTheorems.ListGoneIff(Request(env, cs, device, to), w, p, n);
    }
  }

  lemma DeletesLists(c: string, t: Option<Json>, n: string)
    requires NamesakeOf(c).Some?
    ensures Deletes(c, t, n)
  {
    hide ClassOf;
    DeleteTheorems.PartnerTwice(ClassOf(c).value);
    DeleteTheorems.ListsAreNotGslb(ClassOf(c).value);
  }

  /** One object of a class with names, in closed form. */
  lemma CarriedAt(env: Environment, cs: Classes, device: map<string, Json>, to: map<string, Json>, c: string, n: string)
    requires Regular(env) && Usual(cs) && Prepared(cs, device) && Prepared(cs, to) && c in cs.truth && cs.Named(c)
    ensures var after := Carried(env, cs, device, to);
      && after.Some? && (c in after.value ==> after.value[c].Obj?)
      && Field(Lookup(after.value, c), n) ==
           if Takes(device, to, c, n) then None else WrittenBody(env, cs, device, to, c, n)
  {
    hide NameOf, ClassOf, NamesakeOf, WrittenRun, Compared, Del.Processed, Prepared;
    GetsThrough(env, cs, device, to);
    WrittenAt(env, cs, device, to, c, n);
    ClassOfName(c);
    if ClassOf(c).Some? {
      if NamesakeOf(c).Some? {
        ListLeft(env, cs, device, to, c, n);
      } else {
        SingleLeft(env, cs, device, to, c, n);
      }
    } else {
      UnknownTakes(device, to, c, n);
    }
  }

  lemma UnknownTakes(device: map<string, Json>, to: map<string, Json>, c: string, n: string)
    requires ClassOf(c).None?
    ensures !Takes(device, to, c, n)
  {
    hide ClassOf, Compared;
  }

  /** One class that is not of lists, in closed form. */
  lemma CarriedClass(env: Environment, cs: Classes, device: map<string, Json>, to: map<string, Json>, c: string)
    requires Regular(env) && Usual(cs) && Prepared(cs, device) && Prepared(cs, to) && c in cs.truth && Ordinary(c)
    ensures var after := Carried(env, cs, device, to);
      after.Some? && Lookup(after.value, c) == ClassAfter(cs.Named(c), c, Lookup(device, c), Lookup(to, c))
  {
    hide NameOf, ClassOf, NamesakeOf, WrittenRun, Compared, Written, UpdateOf, ToUpdate, Del.Processed, WrittenBody;
    hide Takes, ClassAfter, Deletes;
    GetsThrough(env, cs, device, to);
    WrittenWhole(env, cs, device, to, c);
    var f, t := Lookup(device, c), Lookup(to, c);
    ClosedShape(cs.Named(c), c, f, t);
    if cs.Named(c) && c in WrittenRun(env, cs, device, to) {
      WrittenAt(env, cs, device, to, c, "");
      var left := Carried(env, cs, device, to).value[c];
      var closed := ClassAfter(true, c, f, t).value;
      forall n ensures Lookup(left.fields, n) == Lookup(closed.fields, n) {
        CarriedAt(env, cs, device, to, c, n);
        WrittenAt(env, cs, device, to, c, n);
        ClosedAt(c, f, t, n);
        TakesOwn(cs, device, to, c, n);
      }
      SameFields(left.fields, closed.fields);
    }
  }

  lemma ClosedShape(named: bool, c: string, f: Option<Json>, t: Option<Json>)
    ensures var w, r := Written(named, f, UpdateOf(named, f, t)), ClassAfter(named, c, f, t);
      (!named ==> r == w) && (w.None? ==> r.None?) && (named && w.Some? && w.value.Obj? ==> r.Some? && r.value.Obj?)
  {
    hide Written, UpdateOf, Deletes;
  }

  lemma ClosedAt(c: string, f: Option<Json>, t: Option<Json>, n: string)
    ensures var w := Written(true, f, UpdateOf(true, f, t));
      (w.Some? ==> w.value.Obj?) ==>
        Field(ClassAfter(true, c, f, t), n) == if n in Gone(f, t) && Deletes(c, t, n) then None else Field(w, n)
  {
    hide Written, UpdateOf, Deletes;
  }

  lemma TakesOwn(cs: Classes, device: map<string, Json>, to: map<string, Json>, c: string, n: string)
    requires Prepared(cs, device) && c in cs.truth && NamesakeOf(c).None?
    ensures Takes(device, to, c, n)
      <==> n in Gone(Lookup(device, c), Lookup(to, c)) && Deletes(c, Lookup(to, c), n)
  {
    hide NamesakeOf, Compared, Deletes;
    PreparedClass(cs, device, c);
    ComparedClass(to, device, c);
  }

  lemma WrittenWhole(env: Environment, cs: Classes, device: map<string, Json>, to: map<string, Json>, c: string)
    requires Prepared(cs, device) && c in cs.truth && NamesakeOf(c).None?
    ensures Lookup(WrittenRun(env, cs, device, to), c)
      == Written(cs.Named(c), Lookup(device, c), UpdateOf(cs.Named(c), Lookup(device, c), Lookup(to, c)))
  {
    hide NamesakeOf, Compared, Written, UpdateOf, ToUpdate, WrittenAll;
    ComparedClass(to, device, c);
    PreparedClass(cs, device, c);
    WrittenLookup(env, cs, device, ToUpdate(cs, to, Compared(to, device)), c);
    UpdateLookup(cs, to, Compared(to, device), c);
  }

  // ---------------------------------------------------------------- convergence

  /**
   * What a caller can check before: a class without names only changes by being written; in a named class every
   * vanishing object is one that the delete handler takes away, and what is written is not an empty body.
   */
  predicate Attainable(named: bool, c: string, f: Option<Json>, t: Option<Json>)
  {
    || f == t
    || (if !named then t.Some?
        else
          && (forall n <- Gone(f, t) :: Deletes(c, t, n))
          && (t.Some? && t.value.Obj? ==>
                forall n <- t.value.fields :: t.value.fields[n] == EMPTY ==> Field(f, n) == Some(EMPTY)))
  }

  lemma NamedAfter(c: string, f: Option<Json>, t: Option<Json>, n: string)
    requires ObjectsByName(f) && ObjectsByName(t)
    ensures var r := ClassAfter(true, c, f, t);
      && (r.None? <==> f.None? && t.None?) && (r.Some? ==> r.value.Obj?)
      && Field(r, n) ==
           if n in KeysOf(t) then (if Field(t, n) != Some(EMPTY) then Field(t, n) else Field(f, n))
           else if Deletes(c, t, n) then None else Field(f, n)
  {
    WrittenField(f, f, t, n);
    hide Written, UpdateOf, Deletes;
  }

  /** One class of the device is the target's afterwards exactly when the target is attainable. */
  lemma ClassAttained(named: bool, c: string, f: Option<Json>, t: Option<Json>)
    requires ClassShape(named, f) && ClassShape(named, t) && PrunedClass(f) == f && PrunedClass(t) == t
    requires named ==> ObjectsByName(f) && ObjectsByName(t)
    ensures PrunedClass(ClassAfter(named, c, f, t)) == t <==> Attainable(named, c, f, t)
  {
    if named {
      NamedAttained(c, f, t);
    }
  }

  lemma NamedAttained(c: string, f: Option<Json>, t: Option<Json>)
    requires ObjectsByName(f) && ObjectsByName(t)
    ensures PrunedClass(ClassAfter(true, c, f, t)) == t <==> Attainable(true, c, f, t)
  {
    hide Deletes;
    var r := ClassAfter(true, c, f, t);
    NamedAfter(c, f, t, "");
    forall n ensures Field(r, n) ==
      if n in KeysOf(t) then (if Field(t, n) != Some(EMPTY) then Field(t, n) else Field(f, n))
      else if Deletes(c, t, n) then None else Field(f, n)
    {
      NamedAfter(c, f, t, n);
    }
    hide ClassAfter;
    SameClassIff(r, t);
    if f == t {
      forall n ensures Field(r, n) == Field(t, n) {}
    } else {
      forall n ensures Field(r, n) == Field(t, n) <==>
        (n in Gone(f, t) ==> Deletes(c, t, n)) && (Field(t, n) == Some(EMPTY) ==> Field(f, n) == Some(EMPTY))
      {
      }
    }
  }

  /** Two classes of objects, read without empty classes, agree exactly when they agree name by name. */
  lemma SameClassIff(r: Option<Json>, t: Option<Json>)
    requires (r.Some? ==> r.value.Obj?) && ObjectsByName(t)
    ensures PrunedClass(r) == t <==> forall n :: Field(r, n) == Field(t, n)
  {
    if forall n :: Field(r, n) == Field(t, n) {
      if r.Some? && t.Some? {
        forall n ensures Lookup(r.value.fields, n) == Lookup(t.value.fields, n) {
          assert Field(r, n) == Field(t, n);
        }
        SameFields(r.value.fields, t.value.fields);
      } else if r.Some? {
        NoFields(r);
      } else if t.Some? {
        NoFields(t);
      }
    }
  }

  lemma NoFields(j: Option<Json>)
    requires j.Some? && j.value.Obj?
    ensures (forall n :: Field(j, n).None?) <==> j.value == EMPTY
  {
    if forall n :: Field(j, n).None? {
      forall n ensures n !in j.value.fields { assert Field(j, n).None?; }
      assert j.value.fields == map[];
    }
  }

  // ---------------------------------------------------------------- lists

  /**
   * For a class of lists: an empty body only where there is one, and no namesake of a list that is declared in the
   * other class only.
   */
  predicate ListAttainable(d: Option<Json>, t: Option<Json>, fq: Option<Json>, tq: Option<Json>)
  {
    && (forall n <- KeysOf(t) :: Field(t, n) == Some(EMPTY) ==> Field(d, n) == Some(EMPTY))
    && (forall n <- KeysOf(tq) - KeysOf(t) :: n !in KeysOf(d) && !Puts(fq, tq, n))
  }

  /** What a caller can check before the run. */
  predicate Attains(cs: Classes, device: map<string, Json>, to: map<string, Json>, c: string)
  {
    if NamesakeOf(c).None? then Attainable(cs.Named(c), c, Lookup(device, c), Lookup(to, c))
    else
      var q := NamesakeOf(c).value;
      ListAttainable(Lookup(device, c), Lookup(to, c), Lookup(Compared(to, device), q), Lookup(to, q))
  }

  /**
   * A list after the run: gone if neither class declares it, else as declared, or as it was, or the namesake of a new
   * one.
   */
  lemma ListAfter(env: Environment, cs: Classes, device: map<string, Json>, to: map<string, Json>, c: string, n: string)
    requires Regular(env) && Usual(cs) && Prepared(cs, device) && Prepared(cs, to)
    requires c in cs.truth && NamesakeOf(c).Some?
    ensures var after := Carried(env, cs, device, to);
      var q := NamesakeOf(c).value;
      && after.Some? && (c in after.value ==> after.value[c].Obj?)
      && Field(Lookup(after.value, c), n) ==
           if n !in KeysOf(Lookup(to, c)) + KeysOf(Lookup(to, q)) then None
           else WrittenBody(env, cs, device, to, c, n)
  {
    NamesakeClass(c);
    DeletesLists(c, Lookup(to, c), n);
    hide NameOf, ClassOf, NamesakeOf, Compared, Carried, Prepared, Deletes, Takes, WrittenBody;
    assert cs.Named(c);
    CarriedAt(env, cs, device, to, c, n);
    TakesListIff(device, to, c, n);
    if n !in KeysOf(Lookup(to, c)) + KeysOf(Lookup(to, NamesakeOf(c).value)) && n !in KeysOf(Lookup(device, c)) {
      UnwrittenBody(env, cs, device, to, c, n);
    }
  }

  lemma UnwrittenBody(env: Environment, cs: Classes, device: map<string, Json>, to: map<string, Json>, c: string,
                      n: string)
    requires NamesakeOf(c).Some? && n !in KeysOf(Lookup(device, c))
    requires n !in KeysOf(Lookup(to, c)) + KeysOf(Lookup(to, NamesakeOf(c).value))
    ensures WrittenBody(env, cs, device, to, c, n).None?
  {
    hide NamesakeOf, Compared;
  }

  lemma TakesListIff(device: map<string, Json>, to: map<string, Json>, c: string, n: string)
    requires NamesakeOf(c).Some?
    ensures var q := NamesakeOf(c).value;
      Takes(device, to, c, n) <==>
        && n !in KeysOf(Lookup(to, c)) + KeysOf(Lookup(to, q))
        && n in KeysOf(Lookup(device, c)) + KeysOf(Lookup(device, q))
  {
    NamesakeClass(c);
    DeletesLists(c, Lookup(to, c), n);
    hide NameOf, ClassOf, NamesakeOf, Compared, Deletes;
    ComparedFields(to, device, c, n);
    ComparedFields(to, device, NamesakeOf(c).value, n);
  }

  lemma ComparedFields(to: map<string, Json>, device: map<string, Json>, c: string, n: string)
    ensures n in KeysOf(Lookup(Compared(to, device), c)) <==> n in KeysOf(Lookup(device, c)) && n !in Shadowed(to, c)
  {
    hide Compared, Shadowed;
    ComparedClass(to, device, c);
    assert n in KeysOf(Lookup(Compared(to, device), c)) <==> Field(Lookup(Compared(to, device), c), n).Some?;
  }

  /** What list attainability says about one name. */
  predicate Fits(d: Option<Json>, t: Option<Json>, fq: Option<Json>, tq: Option<Json>, n: string)
  {
    && (Field(t, n) == Some(EMPTY) ==> Field(d, n) == Some(EMPTY))
    && (n in KeysOf(tq) - KeysOf(t) ==> n !in KeysOf(d) && !Puts(fq, tq, n))
  }

  lemma FitsAll(d: Option<Json>, t: Option<Json>, fq: Option<Json>, tq: Option<Json>)
    ensures ListAttainable(d, t, fq, tq) <==> forall n :: Fits(d, t, fq, tq, n)
  {
    hide Puts;
    if forall n :: Fits(d, t, fq, tq, n) {
      forall n <- KeysOf(t) ensures Field(t, n) == Some(EMPTY) ==> Field(d, n) == Some(EMPTY) {
        assert Fits(d, t, fq, tq, n);
      }
      forall n <- KeysOf(tq) - KeysOf(t) ensures n !in KeysOf(d) && !Puts(fq, tq, n) {
        assert Fits(d, t, fq, tq, n);
      }
    }
  }

  lemma ListAttained(env: Environment, cs: Classes, device: map<string, Json>, to: map<string, Json>, c: string)
    requires Regular(env) && Usual(cs) && Prepared(cs, device) && Prepared(cs, to)
    requires c in cs.truth && NamesakeOf(c).Some?
    ensures Carried(env, cs, device, to).Some?
    ensures Lookup(Pruned(Carried(env, cs, device, to).value), c) == Lookup(to, c) <==> Attains(cs, device, to, c)
  {
    hide NameOf, ClassOf, NamesakeOf, Compared, Carried, Prepared, ListAttainable, Fits, Regular;
    NamesakeClass(c);
    var q := NamesakeOf(c).value;
    assert cs.Named(c);
    ListAfter(env, cs, device, to, c, "");
    var r, d, t := Lookup(Carried(env, cs, device, to).value, c), Lookup(device, c), Lookup(to, c);
    var fq, tq := Lookup(Compared(to, device), q), Lookup(to, q);
    PreparedClass(cs, to, c);
    SameClassIff(r, t);
    FitsAll(d, t, fq, tq);
    forall n ensures Field(r, n) == Field(t, n) <==> Fits(d, t, fq, tq, n) {
      ListFitsIff(env, cs, device, to, c, n);
    }
  }

  lemma ListFitsIff(env: Environment, cs: Classes, device: map<string, Json>, to: map<string, Json>, c: string,
                    n: string)
    requires Regular(env) && Usual(cs) && Prepared(cs, device) && Prepared(cs, to)
    requires c in cs.truth && NamesakeOf(c).Some?
    ensures var after, q := Carried(env, cs, device, to), NamesakeOf(c).value;
      after.Some? && (Field(Lookup(after.value, c), n) == Field(Lookup(to, c), n) <==>
        Fits(Lookup(device, c), Lookup(to, c), Lookup(Compared(to, device), q), Lookup(to, q), n))
  {
    hide NamesakeOf, Compared, Carried, Prepared, WrittenBody;
    ListAfter(env, cs, device, to, c, n);
    if n in KeysOf(Lookup(to, c)) + KeysOf(Lookup(to, NamesakeOf(c).value)) {
      ListFieldIff(env, cs, device, to, c, n);
    }
  }

  lemma ListFieldIff(env: Environment, cs: Classes, device: map<string, Json>, to: map<string, Json>, c: string,
                     n: string)
    requires Regular(env) && NamesakeOf(c).Some? && n in KeysOf(Lookup(to, c)) + KeysOf(Lookup(to, NamesakeOf(c).value))
    ensures var t, d, q := Lookup(to, c), Lookup(device, c), NamesakeOf(c).value;
      WrittenBody(env, cs, device, to, c, n) == Field(t, n) <==>
        && (Field(t, n) == Some(EMPTY) ==> Field(d, n) == Some(EMPTY))
        && (n in KeysOf(Lookup(to, q)) - KeysOf(t) ==>
              n !in KeysOf(d) && !Puts(Lookup(Compared(to, device), q), Lookup(to, q), n))
  {
    hide NamesakeOf, Compared;
    ComparedClass(to, device, c);
  }

  /** Lists are on the device in both classes exactly when one of the two declares them. */
  lemma ListPresentIff(env: Environment, cs: Classes, device: map<string, Json>, to: map<string, Json>, c: string,
                       n: string)
    requires Regular(env) && Usual(cs) && Prepared(cs, device) && Prepared(cs, to)
    requires c in cs.truth && NamesakeOf(c).Some?
    requires n in KeysOf(Lookup(device, c)) <==> n in KeysOf(Lookup(device, NamesakeOf(c).value))
    requires Field(Lookup(to, c), n) != Some(EMPTY) && Field(Lookup(to, NamesakeOf(c).value), n) != Some(EMPTY)
    ensures var after := Carried(env, cs, device, to);
      after.Some? && (n in KeysOf(Lookup(after.value, c))
        <==> n in KeysOf(Lookup(to, c)) + KeysOf(Lookup(to, NamesakeOf(c).value)))
  {
    hide NamesakeOf, Compared, Carried, Prepared;
    ListAfter(env, cs, device, to, c, n);
    ComparedFields(to, device, c, n);
    ComparedFields(to, device, NamesakeOf(c).value, n);
    assert n in KeysOf(Lookup(Carried(env, cs, device, to).value, c))
      <==> Field(Lookup(Carried(env, cs, device, to).value, c), n).Some?;
    ComparedClass(to, device, c);
    ComparedClass(to, device, NamesakeOf(c).value);
  }

  /** A declared list has its declared body, whatever happens in the other class. */
  lemma DeclaredListWritten(env: Environment, cs: Classes, device: map<string, Json>, to: map<string, Json>, c: string,
                            n: string)
    requires Regular(env) && Usual(cs) && Prepared(cs, device) && Prepared(cs, to)
    requires c in cs.truth && NamesakeOf(c).Some? && Field(Lookup(to, c), n).Some?
    requires Field(Lookup(to, c), n) != Some(EMPTY)
    ensures var after := Carried(env, cs, device, to);
      after.Some? && Field(Lookup(after.value, c), n) == Field(Lookup(to, c), n)
  {
    hide NamesakeOf, Compared, Carried, Prepared;
    ListAfter(env, cs, device, to, c, n);
    ComparedClass(to, device, c);
  }

  // ---------------------------------------------------------------- main results

  /**
   * Convergence: once both declarations have been carried out, a class of truth reads as the target says, exactly
   * when the target is attainable from what the device held.
   */
  lemma Converges(env: Environment, cs: Classes, device: map<string, Json>, to: map<string, Json>, c: string)
    requires Regular(env) && Usual(cs) && Prepared(cs, device) && Prepared(cs, to) && c in cs.truth && Handled(c)
    ensures var after := Carried(env, cs, device, to);
      after.Some? && (Lookup(Pruned(after.value), c) == Lookup(to, c) <==> Attains(cs, device, to, c))
  {
    if NamesakeOf(c).Some? {
      ListAttained(env, cs, device, to, c);
    } else {
      hide Carried, ClassAfter, Attainable, Prepared, NamesakeOf;
      PreparedClass(cs, device, c);
      PreparedClass(cs, to, c);
      CarriedClass(env, cs, device, to, c);
      ClassAttained(cs.Named(c), c, Lookup(device, c), Lookup(to, c));
    }
  }

  /**
   * A second run with the same target leaves the class alone exactly when the target is attainable from what the first
   * run saw, and, for lists, no name is declared in both classes.
   */
  lemma SecondRunIff(env: Environment, cs: Classes, device: map<string, Json>, to: map<string, Json>, c: string)
    requires Regular(env) && Usual(cs) && Prepared(cs, device) && Prepared(cs, to) && c in cs.truth && Handled(c)
    ensures var after := Carried(env, cs, device, to);
      after.Some? &&
      var again := Compared(to, Pruned(after.value));
      (c !in ToUpdate(cs, to, again) && c !in ToDelete(cs, to, again)
       <==> Attainable(cs.Named(c), c, Lookup(Compared(to, device), c), Lookup(to, c))
            && KeysOf(Lookup(to, c)) !! Shadowed(to, c))
  {
    hide Carried, Attainable, Prepared, Compared, NamesakeOf, ToUpdate, ToDelete;
    ComparedAgainIff(env, cs, device, to, c);
    var again := Compared(to, Pruned(Carried(env, cs, device, to).value));
    SilentIff(cs, again, to, c);
  }

  /** The diff mentions a class of truth exactly when it differs. */
  lemma SilentIff(cs: Classes, from: map<string, Json>, to: map<string, Json>, c: string)
    requires c in cs.truth
    ensures c !in ToUpdate(cs, to, from) && c !in ToDelete(cs, to, from) <==> Lookup(from, c) == Lookup(to, c)
  {
    if Lookup(from, c) == Lookup(to, c) {
      SameClass(cs, from, to, c);
    }
  }

  lemma ComparedAgainIff(env: Environment, cs: Classes, device: map<string, Json>, to: map<string, Json>, c: string)
    requires Regular(env) && Usual(cs) && Prepared(cs, device) && Prepared(cs, to) && c in cs.truth && Handled(c)
    ensures var after := Carried(env, cs, device, to);
      after.Some? &&
      (Lookup(Compared(to, Pruned(after.value)), c) == Lookup(to, c)
       <==> Attainable(cs.Named(c), c, Lookup(Compared(to, device), c), Lookup(to, c))
            && KeysOf(Lookup(to, c)) !! Shadowed(to, c))
  {
    if NamesakeOf(c).Some? {
      ListComparedAgain(env, cs, device, to, c);
    } else {
      hide Carried, Attainable, Compared, NamesakeOf;
      Converges(env, cs, device, to, c);
      PreparedClass(cs, device, c);
      ComparedClass(to, device, c);
      ComparedClass(to, Pruned(Carried(env, cs, device, to).value), c);
    }
  }

  lemma ListComparedAgain(env: Environment, cs: Classes, device: map<string, Json>, to: map<string, Json>, c: string)
    requires Regular(env) && Usual(cs) && Prepared(cs, device) && Prepared(cs, to)
    requires c in cs.truth && NamesakeOf(c).Some?
    ensures var after := Carried(env, cs, device, to);
      after.Some? &&
      (Lookup(Compared(to, Pruned(after.value)), c) == Lookup(to, c)
       <==> Attainable(cs.Named(c), c, Lookup(Compared(to, device), c), Lookup(to, c))
            && KeysOf(Lookup(to, c)) !! Shadowed(to, c))
  {
    NamesakeClass(c);
    hide NameOf, ClassOf, NamesakeOf, Compared, Carried, Prepared, Deletes, Attainable, ComparedFits, Shadowed;
    assert cs.Named(c);
    ListAfter(env, cs, device, to, c, "");
    var after := Pruned(Carried(env, cs, device, to).value);
    var r, f, t := Lookup(Compared(to, after), c), Lookup(Compared(to, device), c), Lookup(to, c);
    PreparedClass(cs, to, c);
    ComparedClass(to, after, c);
    SameClassIff(r, t);
    ComparedFitsAll(c, f, t, Shadowed(to, c));
    forall n ensures Field(r, n) == Field(t, n) <==> ComparedFits(f, t, Shadowed(to, c), n) {
      ComparedBodyIff(env, cs, device, to, c, n);
    }
  }

  /** What the condition of a silent second run says about one name of a class of lists. */
  predicate ComparedFits(f: Option<Json>, t: Option<Json>, shadowed: set<string>, n: string)
  {
    (Field(t, n) == Some(EMPTY) ==> Field(f, n) == Some(EMPTY)) && !(n in KeysOf(t) && n in shadowed)
  }

  lemma ComparedFitsAll(c: string, f: Option<Json>, t: Option<Json>, shadowed: set<string>)
    requires NamesakeOf(c).Some? && ObjectsByName(t)
    ensures (forall n :: ComparedFits(f, t, shadowed, n)) <==> Attainable(true, c, f, t) && KeysOf(t) !! shadowed
  {
    hide NamesakeOf, Deletes;
    forall n { DeletesLists(c, t, n); }
    if forall n :: ComparedFits(f, t, shadowed, n) {
      forall n <- KeysOf(t) ensures n !in shadowed { assert ComparedFits(f, t, shadowed, n); }
      forall n <- KeysOf(t) | t.value.fields[n] == EMPTY ensures Field(f, n) == Some(EMPTY) {
        assert ComparedFits(f, t, shadowed, n);
      }
    }
  }

  lemma ComparedBodyIff(env: Environment, cs: Classes, device: map<string, Json>, to: map<string, Json>, c: string,
                    n: string)
    requires Regular(env) && Usual(cs) && Prepared(cs, device) && Prepared(cs, to)
    requires c in cs.truth && NamesakeOf(c).Some?
    ensures var after := Carried(env, cs, device, to);
      after.Some? && (Field(Lookup(Compared(to, Pruned(after.value)), c), n) == Field(Lookup(to, c), n)
        <==> ComparedFits(Lookup(Compared(to, device), c), Lookup(to, c), Shadowed(to, c), n))
  {
    hide NamesakeOf, Compared, Carried, Prepared;
    ListAfter(env, cs, device, to, c, n);
    var after := Carried(env, cs, device, to).value;
    ComparedClass(to, Pruned(after), c);
    ComparedClass(to, device, c);
    assert Field(Lookup(Pruned(after), c), n) == Field(Lookup(after, c), n);
  }
}
