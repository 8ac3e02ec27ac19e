/**
 * declarationHandler.js, applyDefaults and removeEmptyObjects, composed with the diff: what a post, an empty post and
 * a rollback leave on the device, for the classes of truth that no fix function rewrites.
 */
module Restore {
  import opened Prelude
  import opened Json
  import opened DiffHandler
  import opened DiffTheorems
  import opened ClassNames
  import opened ListFixes
  import opened Reconcile
  import Del = DeleteHandler

  const AUTHENTICATION := "Authentication"
  const REMOTE_USERS_DEFAULTS := "remoteUsersDefaults"

  /** One class after the defaults: the original when the class is missing or empty. */
  function DefaultedClass(c: string, item: Option<Json>, original: Option<Json>): Option<Json>
  {
    if original.None? then item
    else if item.None? || IsEmpty(item) then original
    else if c == AUTHENTICATION && Field(item, REMOTE_USERS_DEFAULTS).None? then WithRemoteUsers(item, original)
    else item
  }

  /** Assigning `undefined` leaves no trace, as the handler clones the declaration through JSON. */
  function WithRemoteUsers(item: Option<Json>, original: Option<Json>): Option<Json>
  {
    if item.Some? && item.value.Obj? && Field(original, REMOTE_USERS_DEFAULTS).Some? then
      Some(Obj(item.value.fields[REMOTE_USERS_DEFAULTS := Field(original, REMOTE_USERS_DEFAULTS).value]))
    else item
  }

  function Defaulted(truth: set<string>, common: map<string, Json>, original: map<string, Json>): map<string, Json>
  {
    common + map c | c in truth && DefaultedClass(c, Lookup(common, c), Lookup(original, c)).Some? ::
      DefaultedClass(c, Lookup(common, c), Lookup(original, c)).value
  }

  /** The Common tenant of a parsed declaration, rewritten in place. */
  class CommonDeclaration {
    var fields: map<string, Json>

    constructor (common: map<string, Json>)
      ensures fields == common
    {
      fields := common;
    }

    method ApplyDefaults(classesOfTruth: seq<string>, original: map<string, Json>)
      requires forall i, j | 0 <= i < j < |classesOfTruth| :: classesOfTruth[i] != classesOfTruth[j]
      modifies this
      ensures fields == Defaulted((set c | c in classesOfTruth), old(fields), original)
    {
      ghost var before := fields;
      for i := 0 to |classesOfTruth|
        invariant forall c :: Lookup(fields, c) == (if c in classesOfTruth[..i]
          then DefaultedClass(c, Lookup(before, c), Lookup(original, c)) else Lookup(before, c))
      {
        var key := classesOfTruth[i];
        assert key !in classesOfTruth[..i];
        if key in original {
          if key !in fields || IsEmpty(Some(fields[key])) {
            fields := fields[key := original[key]];
          } else if key == AUTHENTICATION {
            if Field(Some(fields[key]), REMOTE_USERS_DEFAULTS).None? {
              fields := fields[key := WithRemoteUsers(Some(fields[key]), Some(original[key])).value];
            }
          }
        }
        assert forall c :: c in classesOfTruth[..i + 1] <==> c in classesOfTruth[..i] || c == key;
      }
      assert classesOfTruth[..|classesOfTruth|] == classesOfTruth;
      SameFields(fields, Defaulted((set c | c in classesOfTruth), before, original));
    }

    method RemoveEmptyObjects()
      modifies this
      ensures fields == Pruned(old(fields))
    {
      ghost var before := fields;
      var keys := fields.Keys;
      while keys != {}
        invariant forall c ::
          Lookup(fields, c) == (if c in keys then Lookup(before, c) else PrunedClass(Lookup(before, c)))
        decreases keys
      {
        var key :| key in keys;
        assert Lookup(fields, key) == Lookup(before, key) by {
          assert key in keys;
        }
        if key in fields && IsEmpty(Some(fields[key])) {
          fields := RemoveKey(fields, key);
        }
        keys := keys - {key};
      }
      SameFields(fields, Pruned(before));
    }
  }

  // ---------------------------------------------------------------- a whole run

  /** The declaration the diff aims at. */
  function Desired(cs: Classes, declared: map<string, Json>, original: map<string, Json>): map<string, Json>
  {
    Pruned(Defaulted(cs.truth, declared, original))
  }

  /** Posting `declared` on a device whose configuration reads `device`; None if the run does not get through. */
  function Posted(env: Environment, cs: Classes, device: map<string, Json>, declared: map<string, Json>,
                  original: map<string, Json>): Option<map<string, Json>>
  {
    Carried(env, cs, Pruned(device), Desired(cs, declared, original))
  }

  function PostedAll(env: Environment, cs: Classes, device: map<string, Json>, posts: seq<map<string, Json>>,
                     original: map<string, Json>): Option<map<string, Json>>
  {
    if posts == [] then Some(device)
    else
      var before := PostedAll(env, cs, device, posts[..|posts| - 1], original);
      if before.None? then None else Posted(env, cs, before.value, posts[|posts| - 1], original)
  }

  /** A configuration as it is read or declared: named classes hold objects by name. */
  ghost predicate Readable(cs: Classes, common: map<string, Json>)
  {
    && Shaped(cs, common)
    && forall c <- cs.truth | c in common && cs.Named(c) :: common[c].Obj?
  }

  ghost predicate AllReadable(cs: Classes, device: map<string, Json>, declared: map<string, Json>,
                              original: map<string, Json>)
  {
    && Usual(cs) && !cs.Named(AUTHENTICATION)
    && Readable(cs, device) && Readable(cs, declared) && Readable(cs, original)
  }

  lemma DesiredClass(cs: Classes, declared: map<string, Json>, original: map<string, Json>, c: string)
    requires c in cs.truth
    ensures Lookup(Desired(cs, declared, original), c)
      == PrunedClass(DefaultedClass(c, Lookup(declared, c), Lookup(original, c)))
  {
    assert Lookup(Defaulted(cs.truth, declared, original), c)
      == DefaultedClass(c, Lookup(declared, c), Lookup(original, c));
  }

  lemma PrunedPrepared(cs: Classes, common: map<string, Json>)
    requires Readable(cs, common)
    ensures Prepared(cs, Pruned(common))
  {
    forall c <- cs.truth ensures ClassShape(cs.Named(c), Lookup(Pruned(common), c)) {
      assert ClassShape(cs.Named(c), Lookup(common, c));
    }
  }

  lemma DesiredPrepared(cs: Classes, declared: map<string, Json>, original: map<string, Json>)
    requires Readable(cs, declared) && Readable(cs, original) && !cs.Named(AUTHENTICATION)
    ensures Prepared(cs, Desired(cs, declared, original))
  {
    forall c <- cs.truth
      ensures ClassShape(cs.Named(c), Lookup(Desired(cs, declared, original), c))
      ensures c in Desired(cs, declared, original) && cs.Named(c) ==> Desired(cs, declared, original)[c].Obj?
    {
      DesiredClass(cs, declared, original, c);
      assert ClassShape(cs.Named(c), Lookup(declared, c)) && ClassShape(cs.Named(c), Lookup(original, c));
    }
  }

  /** A run gets through, and leaves a class of truth as desired exactly when that is attainable from the device. */
  lemma PostedClass(env: Environment, cs: Classes, device: map<string, Json>, declared: map<string, Json>,
                    original: map<string, Json>, c: string)
    requires Regular(env) && AllReadable(cs, device, declared, original) && c in cs.truth && Handled(c)
    ensures var target := PrunedClass(DefaultedClass(c, Lookup(declared, c), Lookup(original, c)));
      var after := Posted(env, cs, device, declared, original);
      && Lookup(Desired(cs, declared, original), c) == target && after.Some?
      && (Lookup(Pruned(after.value), c) == target
          <==> Attains(cs, Pruned(device), Desired(cs, declared, original), c))
  {
    hide Carried, Attains, Prepared, Pruned, PrunedClass, Desired;
    PrunedPrepared(cs, device);
    DesiredPrepared(cs, declared, original);
    DesiredClass(cs, declared, original, c);
    Converges(env, cs, Pruned(device), Desired(cs, declared, original), c);
  }

  /** For a class that is not of lists, what counts is the class alone. */
  lemma OrdinaryAttains(cs: Classes, device: map<string, Json>, declared: map<string, Json>,
                        original: map<string, Json>, c: string)
    requires c in cs.truth && Ordinary(c)
    ensures Handled(c)
    ensures Attains(cs, Pruned(device), Desired(cs, declared, original), c) <==>
      Attainable(cs.Named(c), c, Lookup(Pruned(device), c),
                 PrunedClass(DefaultedClass(c, Lookup(declared, c), Lookup(original, c))))
  {
    hide Attainable, Desired, Pruned, NamesakeOf;
    DesiredClass(cs, declared, original, c);
  }

  // ---------------------------------------------------------------- runs in sequence

  /** Whatever is on the device afterwards was declared or there before, or is the namesake of a declared list. */
  lemma CarriedShape(env: Environment, cs: Classes, device: map<string, Json>, to: map<string, Json>, c: string,
                     n: string)
    requires Regular(env) && Usual(cs) && Prepared(cs, device) && Prepared(cs, to) && c in cs.truth && cs.Named(c)
    ensures var after := Carried(env, cs, device, to);
      && after.Some? && (c in after.value ==> after.value[c].Obj?)
      && (Field(Lookup(after.value, c), n).Some? ==> n != "" && Field(Lookup(after.value, c), n).value.Obj?)
  {
    hide NameOf, ClassOf, NamesakeOf, Compared, Carried, Takes;
    CarriedAt(env, cs, device, to, c, n);
    assert ClassShape(true, Lookup(device, c)) && ClassShape(true, Lookup(to, c));
    if NamesakeOf(c).Some? {
      NamesakeClass(c);
      var q := NamesakeOf(c).value;
      assert cs.Named(q) && q in cs.truth;
      assert ClassShape(true, Lookup(to, q));
    }
  }

  lemma CarriedReadable(env: Environment, cs: Classes, device: map<string, Json>, to: map<string, Json>)
    requires Regular(env) && Usual(cs) && Prepared(cs, device) && Prepared(cs, to)
    ensures var after := Carried(env, cs, device, to);
      after.Some? && Readable(cs, after.value)
  {
    GetsThrough(env, cs, device, to);
    forall c <- cs.truth
      ensures var after := Carried(env, cs, device, to).value;
        ClassShape(cs.Named(c), Lookup(after, c)) && (c in after && cs.Named(c) ==> after[c].Obj?)
    {
      if cs.Named(c) {
        NamedShape(env, cs, device, to, c);
      } else {
        NamelessShape(env, cs, device, to, c);
      }
    }
  }

  lemma NamedShape(env: Environment, cs: Classes, device: map<string, Json>, to: map<string, Json>, c: string)
    requires Regular(env) && Usual(cs) && Prepared(cs, device) && Prepared(cs, to) && c in cs.truth && cs.Named(c)
    ensures var after := Carried(env, cs, device, to);
      && after.Some? && (c in after.value ==> after.value[c].Obj?)
      && ClassShape(true, Lookup(after.value, c))
  {
    hide Carried, Prepared;
    CarriedShape(env, cs, device, to, c, "");
    var after := Carried(env, cs, device, to).value;
    if c in after {
      forall n <- after[c].fields ensures n != "" && after[c].fields[n].Obj? {
        CarriedShape(env, cs, device, to, c, n);
        assert Field(Lookup(after, c), n) == Some(after[c].fields[n]);
      }
    }
  }

  lemma NamelessIsNoList(cs: Classes, c: string)
    requires Usual(cs) && !cs.Named(c)
    ensures NamesakeOf(c).None?
  {
    if NamesakeOf(c).Some? { NamesakeClass(c); }
  }

  lemma NamelessWritten(f: Option<Json>, t: Option<Json>)
    requires ClassShape(false, f) && ClassShape(false, t)
    ensures ClassShape(false, Written(false, f, UpdateOf(false, f, t)))
  {
  }

  lemma NamelessShape(env: Environment, cs: Classes, device: map<string, Json>, to: map<string, Json>, c: string)
    requires Regular(env) && Usual(cs) && Prepared(cs, device) && Prepared(cs, to) && c in cs.truth && !cs.Named(c)
    ensures var after := Carried(env, cs, device, to);
      after.Some? && ClassShape(false, Lookup(after.value, c))
  {
    NamelessIsNoList(cs, c);
    hide NameOf, ClassOf, NamesakeOf, Compared, WrittenRun, Del.Processed, UpdateOf;
    GetsThrough(env, cs, device, to);
    WrittenWhole(env, cs, device, to, c);
    NamelessWritten(Lookup(device, c), Lookup(to, c));
    assert ClassShape(false, Lookup(device, c)) && ClassShape(false, Lookup(to, c));
  }

  lemma PostedReadable(env: Environment, cs: Classes, device: map<string, Json>, declared: map<string, Json>,
                       original: map<string, Json>)
    requires Regular(env) && AllReadable(cs, device, declared, original)
    ensures var after := Posted(env, cs, device, declared, original);
      after.Some? && Readable(cs, after.value)
  {
    hide Carried, Readable;
    PrunedPrepared(cs, device);
    DesiredPrepared(cs, declared, original);
    CarriedReadable(env, cs, Pruned(device), Desired(cs, declared, original));
  }

  lemma {:induction false} PostedAllReadable(env: Environment, cs: Classes, device: map<string, Json>,
                                             posts: seq<map<string, Json>>, original: map<string, Json>)
    requires Regular(env) && Usual(cs) && !cs.Named(AUTHENTICATION)
    requires Readable(cs, device) && Readable(cs, original) && forall p <- posts :: Readable(cs, p)
    ensures var after := PostedAll(env, cs, device, posts, original);
      after.Some? && Readable(cs, after.value)
  {
    hide Posted, Readable;
    if posts != [] {
      var n := |posts| - 1;
      PostedAllReadable(env, cs, device, posts[..n], original);
      PostedReadable(env, cs, PostedAll(env, cs, device, posts[..n], original).value, posts[n], original);
    }
  }

  // ---------------------------------------------------------------- what a post and an empty post leave

  /**
   * A post leaves a class as declared, or as it was originally when the class is missing or empty - exactly when that
   * is attainable.
   */
  lemma PostLeaves(env: Environment, cs: Classes, device: map<string, Json>, declared: map<string, Json>,
                   original: map<string, Json>, c: string)
    requires Regular(env) && AllReadable(cs, device, declared, original) && c in cs.truth && Handled(c)
    requires c == AUTHENTICATION ==> IsEmpty(Lookup(declared, c))
    ensures var target := if IsEmpty(Lookup(declared, c)) then Lookup(Pruned(original), c) else Lookup(declared, c);
      var after := Posted(env, cs, device, declared, original);
      after.Some? && (Lookup(Pruned(after.value), c) == target
                      <==> Attains(cs, Pruned(device), Desired(cs, declared, original), c))
  {
    hide Posted, Attains, Desired;
    PostedClass(env, cs, device, declared, original, c);
  }

  /**
   * Authentication, when it is declared and not empty: the remote user defaults are the declared ones, or else those of
   * the original, and everything else is as declared.
   */
  lemma PostLeavesAuthentication(env: Environment, cs: Classes, device: map<string, Json>, declared: map<string, Json>,
                                 original: map<string, Json>)
    requires Regular(env) && AllReadable(cs, device, declared, original) && "Authentication" in cs.truth
    requires "Authentication" in declared && declared["Authentication"].Obj? && declared["Authentication"] != EMPTY
    ensures var after := Posted(env, cs, device, declared, original);
      && after.Some? && "Authentication" in after.value && after.value["Authentication"].Obj?
      && (forall n | n != "remoteUsersDefaults" ::
            Field(Lookup(after.value, "Authentication"), n) == Field(Lookup(declared, "Authentication"), n))
      && Field(Lookup(after.value, "Authentication"), "remoteUsersDefaults")
         == if Field(Lookup(declared, "Authentication"), "remoteUsersDefaults").Some?
            then Field(Lookup(declared, "Authentication"), "remoteUsersDefaults")
            else Field(Lookup(original, "Authentication"), "remoteUsersDefaults")
  {
    hide Posted, Attains, Attainable, Desired;
    AuthenticationIsNoList();
    var target := DefaultedClass(AUTHENTICATION, Lookup(declared, AUTHENTICATION), Lookup(original, AUTHENTICATION));
    AuthenticationDefaults(Lookup(declared, AUTHENTICATION), Lookup(original, AUTHENTICATION));
    OrdinaryAttains(cs, device, declared, original, AUTHENTICATION);
    WholeAttainable(AUTHENTICATION, Lookup(Pruned(device), AUTHENTICATION), target);
    PostedClass(env, cs, device, declared, original, AUTHENTICATION);
  }

  lemma WholeAttainable(c: string, f: Option<Json>, t: Option<Json>)
    requires t.Some?
    ensures Attainable(false, c, f, t)
  {
  }

  lemma AuthenticationIsNoList()
    ensures Ordinary(AUTHENTICATION)
  {
    if NamesakeOf(AUTHENTICATION).Some? { NamesakeClass(AUTHENTICATION); }
    hide ClassOf, NamesakeOf;
  }

  /** Field by field, what the defaults make of a declared Authentication. */
  lemma AuthenticationDefaults(item: Option<Json>, original: Option<Json>)
    requires item.Some? && item.value.Obj? && item.value != EMPTY
    ensures var target := DefaultedClass(AUTHENTICATION, item, original);
      && target.Some? && target.value.Obj? && !IsEmpty(target)
      && (forall n | n != "remoteUsersDefaults" :: Field(target, n) == Field(item, n))
      && Field(target, "remoteUsersDefaults") == if Field(item, "remoteUsersDefaults").Some?
         then Field(item, "remoteUsersDefaults") else Field(original, "remoteUsersDefaults")
  {
    NoKeys(item.value);
    NoKeys(DefaultedClass(AUTHENTICATION, item, original).value);
    var k :| k in item.value.fields;
  }

  /** A declaration without any class of truth. */
  predicate Blank(cs: Classes, declared: map<string, Json>)
  {
    forall c <- cs.truth :: IsEmpty(Lookup(declared, c))
  }

  /** A class of the original comes back, from any state of the device, exactly when it is attainable from it. */
  lemma BlankRestores(env: Environment, cs: Classes, device: map<string, Json>, declared: map<string, Json>,
                      original: map<string, Json>, c: string)
    requires Regular(env) && AllReadable(cs, device, declared, original) && c in cs.truth && Handled(c)
    requires Blank(cs, declared)
    ensures var after := Posted(env, cs, device, declared, original);
      after.Some? && (Lookup(Pruned(after.value), c) == Lookup(Pruned(original), c)
                      <==> Attains(cs, Pruned(device), Desired(cs, declared, original), c))
  {
    hide Posted, Attains, Desired;
    assert IsEmpty(Lookup(declared, c));
    PostedClass(env, cs, device, declared, original, c);
  }

  /** The same after any sequence of posts. */
  lemma RestoresOriginalIff(env: Environment, cs: Classes, device: map<string, Json>, posts: seq<map<string, Json>>,
                            blank: map<string, Json>, original: map<string, Json>, c: string)
    requires Regular(env) && AllReadable(cs, device, blank, original) && c in cs.truth && Handled(c)
    requires (forall p <- posts :: Readable(cs, p)) && Blank(cs, blank)
    ensures var before := PostedAll(env, cs, device, posts, original);
      var after := PostedAll(env, cs, device, posts + [blank], original);
      before.Some? && after.Some? &&
      (Lookup(Pruned(after.value), c) == Lookup(Pruned(original), c)
       <==> Attains(cs, Pruned(before.value), Desired(cs, blank, original), c))
  {
    hide Posted, Attains, Desired, Readable, Blank;
    assert (posts + [blank])[..|posts|] == posts;
    PostedAllReadable(env, cs, device, posts, original);
    BlankRestores(env, cs, PostedAll(env, cs, device, posts, original).value, blank, original, c);
  }

  // ---------------------------------------------------------------- when the original always comes back

  /** No object of the class is an empty body. */
  predicate NoEmptyObjects(j: Option<Json>)
  {
    j.Some? && j.value.Obj? ==> forall n <- j.value.fields :: j.value.fields[n] != EMPTY
  }

  /** A class that can be written back, and whose later objects the delete handler can take away again. */
  predicate Recoverable(named: bool, c: string, original: Option<Json>)
  {
    if named then
      && NoEmptyObjects(original) && ClassOf(c).Some?
      && (ClassOf(c).value in Del.GSLB_CLASSES ==> !IsEmpty(original))
    else !IsEmpty(original)
  }

  /** The retained objects of a class are among those of the original: they come with the device. */
  predicate RetainedKnown(c: string, j: Option<Json>, original: Option<Json>)
  {
    ClassOf(c).Some? ==> forall n <- KeysOf(j) :: Del.Retained(ClassOf(c).value, n) ==> n in KeysOf(original)
  }

  /** What a run leaves of a class, in closed form. */
  lemma PostedAfter(env: Environment, cs: Classes, device: map<string, Json>, declared: map<string, Json>,
                    original: map<string, Json>, c: string)
    requires Regular(env) && AllReadable(cs, device, declared, original) && c in cs.truth && Ordinary(c)
    ensures var after := Posted(env, cs, device, declared, original);
      after.Some? && Lookup(after.value, c) == ClassAfter(cs.Named(c), c, Lookup(Pruned(device), c),
        PrunedClass(DefaultedClass(c, Lookup(declared, c), Lookup(original, c))))
    ensures Prepared(cs, Pruned(device)) && Prepared(cs, Desired(cs, declared, original))
  {
    hide Carried, Prepared, Pruned, PrunedClass, Desired, ClassAfter;
    PrunedPrepared(cs, device);
    DesiredPrepared(cs, declared, original);
    DesiredClass(cs, declared, original, c);
    CarriedClass(env, cs, Pruned(device), Desired(cs, declared, original), c);
  }

  lemma RetainedStaysKnown(env: Environment, cs: Classes, device: map<string, Json>, declared: map<string, Json>,
                           original: map<string, Json>, c: string)
    requires Regular(env) && AllReadable(cs, device, declared, original) && c in cs.truth && Ordinary(c)
    requires cs.Named(c) && RetainedKnown(c, Lookup(device, c), Lookup(original, c))
    requires RetainedKnown(c, Lookup(declared, c), Lookup(original, c))
    ensures var after := Posted(env, cs, device, declared, original);
      after.Some? && RetainedKnown(c, Lookup(after.value, c), Lookup(original, c))
  {
    hide Posted, Prepared, ClassOf, Del.Retained, Ordinary, Deletes, ClassAfter;
    PostedAfter(env, cs, device, declared, original, c);
    DesiredClass(cs, declared, original, c);
    var f, t := Lookup(Pruned(device), c), Lookup(Desired(cs, declared, original), c);
    PreparedClass(cs, Pruned(device), c);
    PreparedClass(cs, Desired(cs, declared, original), c);
    forall n ensures n in KeysOf(ClassAfter(true, c, f, t)) ==> n in KeysOf(f) || n in KeysOf(t) {
      NamedAfter(c, f, t, n);
    }
  }

  lemma {:induction false} RetainedAlwaysKnown(env: Environment, cs: Classes, device: map<string, Json>,
                                               posts: seq<map<string, Json>>, original: map<string, Json>, c: string)
    requires Regular(env) && AllReadable(cs, device, map[], original) && c in cs.truth && Ordinary(c) && cs.Named(c)
    requires RetainedKnown(c, Lookup(device, c), Lookup(original, c))
    requires forall p <- posts :: Readable(cs, p) && RetainedKnown(c, Lookup(p, c), Lookup(original, c))
    ensures var after := PostedAll(env, cs, device, posts, original);
      after.Some? && Readable(cs, after.value) && RetainedKnown(c, Lookup(after.value, c), Lookup(original, c))
  {
    hide Posted, Ordinary, RetainedKnown, Readable;
    PostedAllReadable(env, cs, device, posts, original);
    if posts != [] {
      var n := |posts| - 1;
      RetainedAlwaysKnown(env, cs, device, posts[..n], original, c);
      RetainedStaysKnown(env, cs, PostedAll(env, cs, device, posts[..n], original).value, posts[n], original, c);
    }
  }

  lemma RecoverableAttainable(named: bool, c: string, f: Option<Json>, original: Option<Json>)
    requires Recoverable(named, c, original) && RetainedKnown(c, f, original)
    ensures Attainable(named, c, f, PrunedClass(original))
  {
    hide ClassOf, Del.Retained;
  }

  /**
   * Whatever has been posted before, a blank declaration brings a class back to its original: a class without names
   * if the original is not empty; a class of the delete handler's list; and a GSLB class if the original is not empty.
   */
  lemma RestoresOriginal(env: Environment, cs: Classes, device: map<string, Json>, posts: seq<map<string, Json>>,
                         blank: map<string, Json>, original: map<string, Json>, c: string)
    requires Regular(env) && AllReadable(cs, device, blank, original) && c in cs.truth && Ordinary(c)
    requires (forall p <- posts :: Readable(cs, p)) && Blank(cs, blank)
    requires Recoverable(cs.Named(c), c, Lookup(original, c))
    requires RetainedKnown(c, Lookup(device, c), Lookup(original, c))
    requires forall p <- posts :: RetainedKnown(c, Lookup(p, c), Lookup(original, c))
    ensures var after := PostedAll(env, cs, device, posts + [blank], original);
      after.Some? && Lookup(Pruned(after.value), c) == Lookup(Pruned(original), c)
  {
    hide Posted, NamesakeOf, Recoverable, Attainable, Attains, PrunedClass, Desired, ClassOf, Del.Retained;
    RestoresOriginalIff(env, cs, device, posts, blank, original, c);
    var before := PostedAll(env, cs, device, posts, original).value;
    BlankAttains(cs, before, blank, original, c);
    if cs.Named(c) {
      RetainedAlwaysKnown(env, cs, device, posts, original, c);
      RecoverableAttainable(true, c, Lookup(Pruned(before), c), Lookup(original, c));
    } else {
      NamelessAttainable(c, Lookup(Pruned(before), c), Lookup(original, c));
    }
  }

  lemma BlankAttains(cs: Classes, before: map<string, Json>, blank: map<string, Json>, original: map<string, Json>,
                     c: string)
    requires c in cs.truth && Ordinary(c) && Blank(cs, blank)
    ensures Attains(cs, Pruned(before), Desired(cs, blank, original), c)
      <==> Attainable(cs.Named(c), c, Lookup(Pruned(before), c), PrunedClass(Lookup(original, c)))
  {
    hide Attains, Attainable, Desired, Pruned, Ordinary;
    assert IsEmpty(Lookup(blank, c));
    OrdinaryAttains(cs, before, blank, original, c);
  }

  lemma NamelessAttainable(c: string, f: Option<Json>, original: Option<Json>)
    requires Recoverable(false, c, original)
    ensures Attainable(false, c, f, PrunedClass(original))
  {
  }

  // ---------------------------------------------------------------- rollback

  /** When the declaration a rollback aims at is the snapshot's own class. */
  predicate Kept(c: string, snapshot: Option<Json>, original: Option<Json>)
  {
    || IsEmpty(original)
    || (!IsEmpty(snapshot)
        && (c == AUTHENTICATION && snapshot.value.Obj? ==>
              Field(snapshot, REMOTE_USERS_DEFAULTS).Some? || Field(original, REMOTE_USERS_DEFAULTS).None?))
  }

  lemma KeptIff(c: string, snapshot: Option<Json>, original: Option<Json>)
    ensures PrunedClass(DefaultedClass(c, snapshot, original)) == PrunedClass(snapshot) <==> Kept(c, snapshot, original)
  {
  }

  /** What has been written is there afterwards: another class than the one aimed at is not reached by chance. */
  lemma AimedAtSomethingElse(named: bool, c: string, f: Option<Json>, t: Option<Json>, other: Option<Json>)
    requires ClassShape(named, f) && ClassShape(named, t) && PrunedClass(f) == f && PrunedClass(t) == t
    requires named ==> ObjectsByName(f) && ObjectsByName(t) && NoEmptyObjects(t)
    requires t.Some? && t != other && (named ==> other.None?)
    ensures PrunedClass(ClassAfter(named, c, f, t)) != other
  {
    if named {
      NoKeys(t.value);
      var n :| n in t.value.fields;
      NamedAfter(c, f, t, n);
      assert Field(ClassAfter(true, c, f, t), n).Some?;
    }
  }

  /**
   * A rollback, from whatever the failed attempt left, brings a class back to the snapshot exactly when its original
   * is empty or the snapshot has something of it (for Authentication including the remote user defaults), and the
   * snapshot's class is attainable. A class the snapshot holds nothing of comes back as the original instead.
   */
  lemma RollbackIff(env: Environment, cs: Classes, dirty: map<string, Json>, snapshot: map<string, Json>,
                    original: map<string, Json>, c: string)
    requires Regular(env) && AllReadable(cs, dirty, snapshot, original) && c in cs.truth && Ordinary(c)
    requires NoEmptyObjects(Lookup(original, c))
    ensures var after := Posted(env, cs, dirty, snapshot, original);
      after.Some? && (Lookup(Pruned(after.value), c) == Lookup(Pruned(snapshot), c)
        <==> Kept(c, Lookup(snapshot, c), Lookup(original, c))
             && Attainable(cs.Named(c), c, Lookup(Pruned(dirty), c), Lookup(Pruned(snapshot), c)))
  {
    hide Posted, Attainable, Attains, Ordinary, ClassAfter, Prepared, Readable, Desired;
    var snap, orig := Lookup(snapshot, c), Lookup(original, c);
    var f, t := Lookup(Pruned(dirty), c), PrunedClass(DefaultedClass(c, snap, orig));
    OrdinaryAttains(cs, dirty, snapshot, original, c);
    PostedClass(env, cs, dirty, snapshot, original, c);
    PostedAfter(env, cs, dirty, snapshot, original, c);
    KeptIff(c, snap, orig);
    if !Kept(c, snap, orig) {
      PreparedClass(cs, Pruned(dirty), c);
      PreparedClass(cs, Desired(cs, snapshot, original), c);
      AimedAtSomethingElse(cs.Named(c), c, f, t, PrunedClass(snap));
    }
  }

  // ---------------------------------------------------------------- three classes that do not come back

  const BODY := Obj(map["enabled" := Bool(true)])
  const DATA_CENTER := NameOf(Del.GSLBDataCenter)
  const ONE_OBJECT := Obj(map["a" := BODY])
  const TWO_OBJECTS := Obj(map["a" := BODY, "b" := BODY])

  lemma BodiesAreNotEmpty()
    ensures BODY != EMPTY && ONE_OBJECT != EMPTY && TWO_OBJECTS != EMPTY
    ensures ONE_OBJECT != TWO_OBJECTS
  {
    assert "enabled" in BODY.fields && "a" in ONE_OBJECT.fields && "b" in TWO_OBJECTS.fields;
    assert "b" !in ONE_OBJECT.fields;
  }

  lemma Readables(cs: Classes, c: string)
    requires cs.Named(c)
    ensures Readable(cs, map[]) && Readable(cs, map[c := ONE_OBJECT]) && Readable(cs, map[c := TWO_OBJECTS])
  {
  }

  lemma DataCenterIsOrdinary()
    ensures ClassOf(DATA_CENTER) == Some(Del.GSLBDataCenter) && Ordinary(DATA_CENTER)
  {
    var n := |CLASSES|;
    assert CLASSES[n - 1] == Del.GSLBDataCenter;
    assert Find(DATA_CENTER, n) == Some(Del.GSLBDataCenter);
  }

  /**
   * The device and the original have no GSLB data center. One is posted, and then a blank declaration: the delete
   * declaration holds an empty class, the delete handler finds no name in it, and the data center stays.
   */
  lemma DataCenterStays(env: Environment, cs: Classes)
    requires Regular(env) && Usual(cs) && !cs.Named(AUTHENTICATION)
    ensures var post := map[DATA_CENTER := ONE_OBJECT];
      var after := PostedAll(env, cs, map[], [post, map[]], map[]);
      after.Some? && Lookup(Pruned(after.value), DATA_CENTER) == Some(ONE_OBJECT)
  {
    DataCenterIsOrdinary();
    assert cs.Named(NameOf(Del.GSLBDataCenter));
    hide ClassOf, Ordinary, NameOf;
    PostedStays(env, cs, DATA_CENTER);
  }

  lemma PostedStays(env: Environment, cs: Classes, c: string)
    requires Regular(env) && Usual(cs) && !cs.Named(AUTHENTICATION) && c != AUTHENTICATION
    requires c in cs.truth && cs.Named(c) && Ordinary(c)
    requires ClassOf(c).Some? && ClassOf(c).value in Del.GSLB_CLASSES
    ensures var after := PostedAll(env, cs, map[], [map[c := ONE_OBJECT], map[]], map[]);
      after.Some? && Lookup(Pruned(after.value), c) == Some(ONE_OBJECT)
  {
    hide Posted, PostedAll, ClassOf, Ordinary, NameOf, Readable, Usual, Pruned;
    var first := PostedFirst(env, cs, c);
    BlankLeaves(env, cs, first, c);
    PostedTwice(env, cs, map[], map[c := ONE_OBJECT], map[], map[]);
  }

  lemma PostedTwice(env: Environment, cs: Classes, device: map<string, Json>, p: map<string, Json>,
                    q: map<string, Json>, original: map<string, Json>)
    ensures PostedAll(env, cs, device, [p, q], original) ==
      var first := Posted(env, cs, device, p, original);
      if first.None? then None else Posted(env, cs, first.value, q, original)
  {
    hide Posted;
    assert [p, q][..1] == [p] && [p][..0] == [];
    assert PostedAll(env, cs, device, [], original) == Some(device);
    assert PostedAll(env, cs, device, [p], original) == Posted(env, cs, device, p, original);
  }

  lemma PostedFirst(env: Environment, cs: Classes, c: string) returns (first: map<string, Json>)
    requires Regular(env) && Usual(cs) && !cs.Named(AUTHENTICATION) && c != AUTHENTICATION
    requires c in cs.truth && cs.Named(c) && Ordinary(c)
    ensures Posted(env, cs, map[], map[c := ONE_OBJECT], map[]) == Some(first)
    ensures Readable(cs, first) && Lookup(Pruned(first), c) == Some(ONE_OBJECT)
  {
    hide Posted, Ordinary, ClassOf, NameOf, Attains, Desired;
    BodiesAreNotEmpty();
    OrdinaryAttains(cs, map[], map[c := ONE_OBJECT], map[], c);
    PostLeaves(env, cs, map[], map[c := ONE_OBJECT], map[], c);
    PostedReadable(env, cs, map[], map[c := ONE_OBJECT], map[]);
    first := Posted(env, cs, map[], map[c := ONE_OBJECT], map[]).value;
  }

  lemma BlankLeaves(env: Environment, cs: Classes, first: map<string, Json>, c: string)
    requires Regular(env) && Usual(cs) && !cs.Named(AUTHENTICATION) && c != AUTHENTICATION
    requires c in cs.truth && cs.Named(c) && Ordinary(c)
    requires ClassOf(c).Some? && ClassOf(c).value in Del.GSLB_CLASSES
    requires Readable(cs, first) && Lookup(Pruned(first), c) == Some(ONE_OBJECT)
    ensures var after := Posted(env, cs, first, map[], map[]);
      after.Some? && Lookup(Pruned(after.value), c) == Some(ONE_OBJECT)
  {
    BodiesAreNotEmpty();
    Readables(cs, c);
    hide ClassOf, Ordinary, Readable, Usual, Posted, Prepared, ClassAfter, Desired;
    PostedAfter(env, cs, first, map[], map[], c);
    NothingDeleted(c, ONE_OBJECT);
  }

  /** A GSLB class whose target is empty is left as it is. */
  lemma NothingDeleted(c: string, j: Json)
    requires ClassOf(c).Some? && ClassOf(c).value in Del.GSLB_CLASSES && j.Obj? && j != EMPTY
    ensures ClassAfter(true, c, Some(j), None) == Some(j)
  {
    hide ClassOf;
    var after := ClassAfter(true, c, Some(j), None).value;
    SameFields(after.fields, j.fields);
  }

  /** The delete handler does not know traffic groups at all. */
  lemma TrafficGroupIsUnknown()
    ensures ClassOf("TrafficGroup").None? && Ordinary("TrafficGroup")
  {
    forall c: Del.Class ensures NameOf(c) != "TrafficGroup" { }
    ClassOfName("TrafficGroup");
  }

  /** So a traffic group that is neither declared nor original stays after a blank declaration, although it is named. */
  lemma TrafficGroupStays(env: Environment, cs: Classes)
    requires Regular(env) && Usual(cs) && !cs.Named(AUTHENTICATION)
    requires cs.Named("TrafficGroup") && "TrafficGroup" in cs.truth
    ensures var original := map["TrafficGroup" := ONE_OBJECT];
      var after := Posted(env, cs, map["TrafficGroup" := TWO_OBJECTS], map[], original);
      after.Some? && Field(Lookup(after.value, "TrafficGroup"), "b") == Some(BODY)
  {
    TrafficGroupIsUnknown();
    UnknownStays(env, cs, "TrafficGroup");
  }

  lemma UnknownStays(env: Environment, cs: Classes, c: string)
    requires Regular(env) && Usual(cs) && !cs.Named(AUTHENTICATION)
    requires c in cs.truth && cs.Named(c) && Ordinary(c) && ClassOf(c).None?
    ensures var after := Posted(env, cs, map[c := TWO_OBJECTS], map[], map[c := ONE_OBJECT]);
      after.Some? && Field(Lookup(after.value, c), "b") == Some(BODY)
  {
    BodiesAreNotEmpty();
    Readables(cs, c);
    hide Posted, ClassOf, Ordinary, NameOf, ClassAfter, Readable, Usual, Prepared, Desired;
    PostedAfter(env, cs, map[c := TWO_OBJECTS], map[], map[c := ONE_OBJECT], c);
    NamedAfter(c, Some(TWO_OBJECTS), Some(ONE_OBJECT), "b");
  }

  lemma VlanIsOrdinary()
    ensures Ordinary(NameOf(Del.VLAN)) && NameOf(Del.VLAN) != AUTHENTICATION
  {
    ClassOfName(NameOf(Del.VLAN));
  }

  /** The snapshot has no VLANs and the original has one: rolling back does not return to the snapshot. */
  lemma SnapshotClassReplaced(env: Environment, cs: Classes)
    requires Regular(env) && Usual(cs) && !cs.Named(AUTHENTICATION)
    ensures var c := NameOf(Del.VLAN);
      var after := Posted(env, cs, map[], map[], map[c := ONE_OBJECT]);
      after.Some? && Lookup(Pruned(after.value), c) == Some(ONE_OBJECT)
  {
    VlanIsOrdinary();
    assert cs.Named(NameOf(Del.VLAN));
    hide ClassOf, Ordinary, NameOf, Posted;
    ReplacedAt(env, cs, NameOf(Del.VLAN));
  }

  lemma ReplacedAt(env: Environment, cs: Classes, c: string)
    requires Regular(env) && Usual(cs) && !cs.Named(AUTHENTICATION) && c != AUTHENTICATION
    requires c in cs.truth && cs.Named(c) && Ordinary(c)
    ensures var after := Posted(env, cs, map[], map[], map[c := ONE_OBJECT]);
      after.Some? && Lookup(Pruned(after.value), c) == Some(ONE_OBJECT)
  {
    hide Posted, Ordinary, ClassOf, NameOf, Attains, Desired;
    BodiesAreNotEmpty();
    OrdinaryAttains(cs, map[], map[], map[c := ONE_OBJECT], c);
    PostLeaves(env, cs, map[], map[], map[c := ONE_OBJECT], c);
  }
}
