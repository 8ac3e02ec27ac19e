/**
 * Rolling back address and port lists: the fixes and the delete handler have taken entries out of the snapshot, and a
 * list comes back with either of its two entries.
 */
module ListRollback {
  import opened Prelude
  import opened Json
  import opened DiffHandler
  import opened DiffTheorems
  import opened ClassNames
  import opened ListFixes
  import opened Refusals
  import opened Reconcile
  import opened Restore
  import opened ListEdits
  import Del = DeleteHandler
  import DeleteTheorems

  // ---------------------------------------------------------------- what a rollback aims at

  function Aimed(snapshot: map<string, Json>, original: map<string, Json>, c: string, x: string): Option<Json>
  {
    if IsEmpty(Lookup(snapshot, c)) then Field(Lookup(original, c), x) else Field(Lookup(snapshot, c), x)
  }

  lemma ListIsNotAuthentication(c: string)
    requires NamesakeOf(c).Some?
    ensures c != AUTHENTICATION
  {
    NamesakeClass(c);
    hide ClassOf, NamesakeOf;
    var p := ClassOf(c).value;
    assert Del.Partner(p).Some?;
  }

  lemma AimedAt(cs: Classes, snapshot: map<string, Json>, original: map<string, Json>, c: string, x: string)
    requires c in cs.truth && NamesakeOf(c).Some?
    ensures Field(Lookup(Desired(cs, snapshot, original), c), x) == Aimed(snapshot, original, c, x)
  {
    hide NamesakeOf;
    ListIsNotAuthentication(c);
    DesiredClass(cs, snapshot, original, c);
  }

  /** The device holds the list in both classes or in neither. */
  predicate PairedAt(device: map<string, Json>, c: string, x: string)
    requires NamesakeOf(c).Some?
  {
    x in KeysOf(Lookup(device, c)) <==> x in KeysOf(Lookup(device, NamesakeOf(c).value))
  }

  /** A list is on the device after a run exactly when the run aims at it in one of the two classes. */
  lemma ListPosted(env: Environment, cs: Classes, dirty: map<string, Json>, snapshot: map<string, Json>,
                   original: map<string, Json>, c: string, x: string)
    requires Regular(env) && AllReadable(cs, dirty, snapshot, original) && c in cs.truth && NamesakeOf(c).Some?
    requires PairedAt(dirty, c, x) && Aimed(snapshot, original, c, x) != Some(EMPTY)
    requires Aimed(snapshot, original, NamesakeOf(c).value, x) != Some(EMPTY)
    ensures var after := Posted(env, cs, dirty, snapshot, original);
      var own, other := Aimed(snapshot, original, c, x), Aimed(snapshot, original, NamesakeOf(c).value, x);
      && after.Some? && (x in KeysOf(Lookup(after.value, c)) <==> own.Some? || other.Some?)
      && (own.Some? ==> Field(Lookup(after.value, c), x) == own)
  {
    hide NameOf, ClassOf, NamesakeOf, Carried, Desired, Readable, Prepared, Pruned, Aimed, Usual, Regular;
    NamesakeClass(c);
    var q := NamesakeOf(c).value;
    var to := Desired(cs, snapshot, original);
    ListTruth(cs, ClassOf(q).value);
    PrunedPrepared(cs, dirty);
    DesiredPrepared(cs, snapshot, original);
    AimedAt(cs, snapshot, original, c, x);
    AimedAt(cs, snapshot, original, q, x);
    PrunedKeys(dirty, c);
    PrunedKeys(dirty, q);
    ListPresentIff(env, cs, Pruned(dirty), to, c, x);
    if Field(Lookup(to, c), x).Some? {
      DeclaredListWritten(env, cs, Pruned(dirty), to, c, x);
    }
  }

  lemma PrunedKeys(common: map<string, Json>, c: string)
    ensures KeysOf(Lookup(Pruned(common), c)) == KeysOf(Lookup(common, c))
  {
  }

  // ---------------------------------------------------------------- by what the delete handler was asked for

  /** What the snapshot says about a list once the delete handler has been through the lists. */
  ghost function Kept(request: Del.Names, config: Del.Names, common: map<string, Json>, c: Del.Class, x: string)
    : Option<Json>
  {
    if Forgotten(request, config, c, x) then None else Field(Lookup(common, NameOf(c)), x)
  }

  /** What a rollback brings back: the original class if every list of the class has been forgotten. */
  ghost function Returned(request: Del.Names, config: Del.Names, common: map<string, Json>,
                          original: map<string, Json>, c: Del.Class, x: string): Option<Json>
  {
    if forall y <- KeysOf(Lookup(common, NameOf(c))) :: Forgotten(request, config, c, y) then
      Field(Lookup(original, NameOf(c)), x)
    else Kept(request, config, common, c, x)
  }

  lemma ReturnedIsAimed(env: Environment, cs: Classes, common: map<string, Json>, request: Del.Names, w: Del.World,
                        n: nat, original: map<string, Json>, c: Del.Class, x: string)
    requires Regular(env) && Usual(cs) && Readable(cs, common) && w.config == NamesIn(env, common)
    requires DeleteTheorems.Rank(Del.NetPortList) <= n <= |Del.DELETABLE_CLASSES| && UpTo(request, w, n).Some?
    requires Del.Partner(c).Some?
    ensures Aimed(Remaining(common, UpTo(request, w, n).value.config), original, NameOf(c), x)
      == Returned(request, w.config, common, original, c, x)
  {
    hide UpTo, NameOf, Forgotten, NamesIn, Remaining, DeleteTheorems.Rank, Del.Partner, Usual, Regular, Returned;
    ListTruth(cs, c);
    var snapshot := Remaining(common, UpTo(request, w, n).value.config);
    RemainingReadable(cs, common, UpTo(request, w, n).value.config);
    forall y ensures Field(Lookup(snapshot, NameOf(c)), y) == Kept(request, w.config, common, c, y) {
      SnapshotList(env, cs, common, request, w, n, c, y);
    }
    EmptyIff(cs, snapshot, NameOf(c));
    ReturnedFrom(request, w.config, common, snapshot, original, c, x);
  }

  lemma ReturnedFrom(request: Del.Names, config: Del.Names, common: map<string, Json>, snapshot: map<string, Json>,
                     original: map<string, Json>, c: Del.Class, x: string)
    requires forall y :: Field(Lookup(snapshot, NameOf(c)), y) == Kept(request, config, common, c, y)
    requires IsEmpty(Lookup(snapshot, NameOf(c))) <==> forall y :: Field(Lookup(snapshot, NameOf(c)), y).None?
    ensures Aimed(snapshot, original, NameOf(c), x) == Returned(request, config, common, original, c, x)
  {
    hide NameOf, Forgotten, Field, KeysOf;
    forall y { KeyIsField(Lookup(common, NameOf(c)), y); }
    if IsEmpty(Lookup(snapshot, NameOf(c))) {
      forall y <- KeysOf(Lookup(common, NameOf(c))) ensures Forgotten(request, config, c, y) {
        assert Kept(request, config, common, c, y).None?;
      }
    } else {
      var y :| Field(Lookup(snapshot, NameOf(c)), y).Some?;
      assert !Forgotten(request, config, c, y);
    }
  }

  lemma KeyIsField(j: Option<Json>, n: string)
    ensures n in KeysOf(j) <==> Field(j, n).Some?
  {
  }

  /** Neither the current nor the original configuration has an empty body for the list. */
  predicate Bodied(common: map<string, Json>, original: map<string, Json>, c: Del.Class, x: string)
  {
    Field(Lookup(common, NameOf(c)), x) != Some(EMPTY) && Field(Lookup(original, NameOf(c)), x) != Some(EMPTY)
  }

  lemma ReturnedBody(request: Del.Names, config: Del.Names, common: map<string, Json>, original: map<string, Json>,
                     c: Del.Class, x: string)
    requires Bodied(common, original, c, x)
    ensures Returned(request, config, common, original, c, x) != Some(EMPTY)
  {
    hide NameOf, Forgotten;
  }

  lemma EmptyIff(cs: Classes, common: map<string, Json>, c: string)
    requires Readable(cs, common) && c in cs.truth && cs.Named(c)
    ensures IsEmpty(Lookup(common, c)) <==> forall y :: Field(Lookup(common, c), y).None?
  {
    if c in common {
      NoFields(Some(common[c]));
    }
  }

  /**
   * A rollback after a failure brings a list back, in both classes, exactly when one of the two classes returns it;
   * in a class that returns it, with the body that it had.
   */
  lemma ListReturnsIff(env: Environment, cs: Classes, common: map<string, Json>, request: Del.Names, w: Del.World,
                       n: nat, dirty: map<string, Json>, original: map<string, Json>, c: Del.Class, x: string)
    requires Regular(env) && AllReadable(cs, dirty, common, original) && w.config == NamesIn(env, common)
    requires DeleteTheorems.Rank(Del.NetPortList) <= n <= |Del.DELETABLE_CLASSES| && UpTo(request, w, n).Some?
    requires Del.Partner(c).Some? && NamesakeOf(NameOf(c)).Some? && PairedAt(dirty, NameOf(c), x)
    requires Bodied(common, original, c, x) && Bodied(common, original, Del.Partner(c).value, x)
    ensures var after := Posted(env, cs, dirty, Remaining(common, UpTo(request, w, n).value.config), original);
      var own := Returned(request, w.config, common, original, c, x);
      var other := Returned(request, w.config, common, original, Del.Partner(c).value, x);
      && after.Some? && (x in KeysOf(Lookup(after.value, NameOf(c))) <==> own.Some? || other.Some?)
      && (own.Some? ==> Field(Lookup(after.value, NameOf(c)), x) == own)
  {
    var q := Del.Partner(c).value;
    ListClass(c);
    DeleteTheorems.PartnerTwice(c);
    ListTruth(cs, c);
    hide UpTo, NameOf, ClassOf, NamesakeOf, Forgotten, NamesIn, Remaining, Aimed, Posted, Readable, Del.Partner;
    hide Kept, Returned, DeleteTheorems.Rank, PairedAt;
    ReturnedBody(request, w.config, common, original, c, x);
    ReturnedBody(request, w.config, common, original, q, x);
    var config := UpTo(request, w, n).value.config;
    ReturnedIsAimed(env, cs, common, request, w, n, original, c, x);
    ReturnedIsAimed(env, cs, common, request, w, n, original, q, x);
    RemainingReadable(cs, common, config);
    ListPosted(env, cs, dirty, Remaining(common, config), original, NameOf(c), x);
  }

  // ---------------------------------------------------------------- by what was declared

  lemma Firewalls(firewall: Del.Class)
    requires firewall.FirewallAddressList? || firewall.FirewallPortList?
    ensures Del.Partner(firewall).Some? && Del.Partner(Del.Partner(firewall).value) == Some(firewall)
  {
  }

  lemma ListTruth(cs: Classes, c: Del.Class)
    requires Usual(cs) && Del.Partner(c).Some?
    ensures NameOf(c) in cs.truth && cs.Named(NameOf(c))
  {
  }

  lemma VanishingClass(f: Option<Json>, t: Option<Json>)
    ensures f.None? ==> DeleteOf(f, t).None?
    ensures f.Some? && t.None? ==> DeleteOf(f, t) == Some(EMPTY)
  {
  }

  lemma RequestEntry(env: Environment, cs: Classes, from: map<string, Json>, to: map<string, Json>, c: Del.Class)
    requires NameOf(c) in cs.truth
    ensures var request := NamesIn(env, ToDelete(cs, to, from));
      var entry := DeleteOf(Lookup(from, NameOf(c)), Lookup(to, NameOf(c)));
      (c in request <==> entry.Some?) && (c in request ==> request[c] == env.list(KeysOf(entry)))
  {
    hide NameOf, DeleteOf;
  }

  /** The delete declaration says "all of them" when the class vanishes. */
  lemma WantsAllIff(env: Environment, cs: Classes, from: map<string, Json>, to: map<string, Json>, c: Del.Class)
    requires Regular(env) && Prepared(cs, from) && Prepared(cs, to) && NameOf(c) in cs.truth && cs.Named(NameOf(c))
    ensures WantsAll(NamesIn(env, ToDelete(cs, to, from)), c) <==> NameOf(c) in from && NameOf(c) !in to
  {
    hide NameOf, Prepared, DeleteOf, NamesIn, ToDelete;
    var f, t := Lookup(from, NameOf(c)), Lookup(to, NameOf(c));
    PreparedClass(cs, from, NameOf(c));
    PreparedClass(cs, to, NameOf(c));
    DeleteKeys(f, t);
    ListsNothing(env);
    VanishingClass(f, t);
    RequestEntry(env, cs, from, to, c);
    if DeleteOf(f, t).Some? && t.Some? {
      var k :| k in Gone(f, t);
      assert k in env.list(KeysOf(DeleteOf(f, t)));
    }
  }

  /** For a list that is on the device in both classes: what a run towards `to` wants. */
  lemma PairWanted(env: Environment, cs: Classes, common: map<string, Json>, to: map<string, Json>, c: Del.Class,
                   x: string)
    requires Regular(env) && Usual(cs) && Prepared(cs, common) && Prepared(cs, to) && Del.Partner(c).Some?
    requires var q := Del.Partner(c).value;
      x in KeysOf(Lookup(common, NameOf(c))) && x in KeysOf(Lookup(common, NameOf(q)))
    ensures var q := Del.Partner(c).value;
      x in Del.Wanted(Request(env, cs, common, to), NamesIn(env, Compared(to, common)), c)
      <==> x !in KeysOf(Lookup(to, NameOf(c))) && x !in KeysOf(Lookup(to, NameOf(q)))
  {
    hide NameOf, ClassOf, NamesakeOf, Compared, Prepared, NamesIn, Del.Wanted, ToDelete, Del.Partner, Usual;
    ListTruth(cs, c);
    ListClass(c);
    ComparedPrepared(cs, to, common);
    WantedNames(env, cs, Compared(to, common), to, c, x);
    ComparedFields(to, common, NameOf(c), x);
  }

  lemma ForgottenByWanted(request: Del.Names, config: Del.Names, firewall: Del.Class, x: string)
    requires firewall.FirewallAddressList? || firewall.FirewallPortList?
    ensures var net := Del.Partner(firewall).value;
      && (Forgotten(request, config, net, x) <==> x in Del.Wanted(request, config, firewall))
      && (Forgotten(request, config, firewall, x) <==> FirewallForgotten(request, config, firewall, net, x))
  {
    hide Del.Wanted, WantsAll;
  }

  lemma PairForgotten(env: Environment, cs: Classes, common: map<string, Json>, to: map<string, Json>,
                      firewall: Del.Class, x: string)
    requires Regular(env) && Usual(cs) && Prepared(cs, common) && Prepared(cs, to)
    requires firewall.FirewallAddressList? || firewall.FirewallPortList?
    requires var net := Del.Partner(firewall).value;
      x in KeysOf(Lookup(common, NameOf(firewall))) && x in KeysOf(Lookup(common, NameOf(net)))
    ensures var net := Del.Partner(firewall).value;
      var declared := KeysOf(Lookup(to, NameOf(firewall))) + KeysOf(Lookup(to, NameOf(net)));
      var request, config := Request(env, cs, common, to), NamesIn(env, Compared(to, common));
      && (Forgotten(request, config, net, x) <==> x !in declared)
      && (Forgotten(request, config, firewall, x) <==> x !in declared && NameOf(net) in to)
  {
    hide NameOf, ClassOf, NamesakeOf, Compared, Prepared, NamesIn, Del.Wanted, ToDelete, WantsAll, Regular, Usual;
    hide Del.Partner;
    Firewalls(firewall);
    var net := Del.Partner(firewall).value;
    ListTruth(cs, net);
    ListClass(net);
    ForgottenByWanted(Request(env, cs, common, to), NamesIn(env, Compared(to, common)), firewall, x);
    ComparedPrepared(cs, to, common);
    PairWanted(env, cs, common, to, firewall, x);
    PairWanted(env, cs, common, to, net, x);
    WantsAllIff(env, cs, Compared(to, common), to, net);
    ComparedFields(to, common, NameOf(net), x);
  }

  /** A run towards `to` on a device that refuses some deletions, after the first `n` classes. */
  function Failing(env: Environment, cs: Classes, common: map<string, Json>, to: map<string, Json>,
                   refused: set<Del.Object>, n: nat): Option<Del.World>
    requires n <= |Del.DELETABLE_CLASSES|
  {
    UpTo(Request(env, cs, Pruned(common), to), Refusing(Starting(env, cs, Pruned(common), to), refused), n)
  }

  /** state.currentConfig by then. */
  function Snapshot(env: Environment, cs: Classes, common: map<string, Json>, to: map<string, Json>,
                    refused: set<Del.Object>, n: nat): map<string, Json>
    requires n <= |Del.DELETABLE_CLASSES| && Failing(env, cs, common, to, refused, n).Some?
  {
    Remaining(Compared(to, Pruned(common)), Failing(env, cs, common, to, refused, n).value.config)
  }

  /** A list of the class that the original does not have. */
  predicate Added(common: map<string, Json>, original: map<string, Json>, c: Del.Class, x: string)
  {
    Field(Lookup(common, NameOf(c)), x).Some? && Field(Lookup(original, NameOf(c)), x).None?
    && Bodied(common, original, c, x)
  }

  lemma AddedThere(common: map<string, Json>, original: map<string, Json>, c: Del.Class, x: string)
    requires Added(common, original, c, x)
    ensures Field(Lookup(common, NameOf(c)), x).Some?
  {
  }

  /** The snapshot still holds the list. */
  predicate Holds(request: Del.Names, config: Del.Names, current: map<string, Json>, c: Del.Class, x: string)
  {
    Field(Lookup(current, NameOf(c)), x).Some? && !Forgotten(request, config, c, x)
  }

  lemma ReturnedIff(request: Del.Names, config: Del.Names, current: map<string, Json>, original: map<string, Json>,
                    c: Del.Class, x: string)
    requires Field(Lookup(original, NameOf(c)), x).None?
    ensures Returned(request, config, current, original, c, x).Some? <==> Holds(request, config, current, c, x)
  {
    hide NameOf, Forgotten;
    assert x in KeysOf(Lookup(current, NameOf(c))) <==> Field(Lookup(current, NameOf(c)), x).Some?;
  }

  /**
   * For a list that the current configuration has in both classes and the original in neither: it is on the device
   * after the rollback, in both classes, unless both classes wanted to delete it and the network class not all of its
   * lists; and a class that has not forgotten it has its old body.
   */
  lemma PairBackByRequestIff(env: Environment, cs: Classes, common: map<string, Json>, request: Del.Names,
                             w: Del.World, n: nat, dirty: map<string, Json>, original: map<string, Json>,
                             firewall: Del.Class, c: Del.Class, x: string)
    requires Regular(env) && AllReadable(cs, dirty, common, original) && w.config == NamesIn(env, common)
    requires DeleteTheorems.Rank(Del.NetPortList) <= n <= |Del.DELETABLE_CLASSES| && UpTo(request, w, n).Some?
    requires firewall.FirewallAddressList? || firewall.FirewallPortList?
    requires c == firewall || c == Del.Partner(firewall).value
    requires NamesakeOf(NameOf(c)).Some? && PairedAt(dirty, NameOf(c), x)
    requires Added(common, original, firewall, x) && Added(common, original, Del.Partner(firewall).value, x)
    ensures var after := Posted(env, cs, dirty, Remaining(common, UpTo(request, w, n).value.config), original);
      var net := Del.Partner(firewall).value;
      && after.Some?
      && (x in KeysOf(Lookup(after.value, NameOf(c))) <==>
            !(x in Del.Wanted(request, w.config, firewall) && x in Del.Wanted(request, w.config, net)
              && !WantsAll(request, net)))
      && (!Forgotten(request, w.config, c, x) ==>
            Field(Lookup(after.value, NameOf(c)), x) == Field(Lookup(common, NameOf(c)), x))
  {
    hide UpTo, NameOf, ClassOf, NamesakeOf, Forgotten, NamesIn, Remaining, Posted, Readable, Del.Partner, Returned;
    hide DeleteTheorems.Rank, PairedAt, Bodied, Regular, Usual, WantsAll, Del.Wanted;
    Firewalls(firewall);
    var net := Del.Partner(firewall).value;
    ForgottenByWanted(request, w.config, firewall, x);
    ReturnedIff(request, w.config, common, original, firewall, x);
    ReturnedIff(request, w.config, common, original, net, x);
    if !Forgotten(request, w.config, c, x) { ReturnedOwn(request, w.config, common, original, c, x); }
    ListReturnsIff(env, cs, common, request, w, n, dirty, original, c, x);
  }

  lemma ReturnedOwn(request: Del.Names, config: Del.Names, common: map<string, Json>, original: map<string, Json>,
                    c: Del.Class, x: string)
    requires Field(Lookup(common, NameOf(c)), x).Some? && !Forgotten(request, config, c, x)
    ensures Returned(request, config, common, original, c, x) == Field(Lookup(common, NameOf(c)), x)
  {
    hide NameOf, Forgotten;
    KeyIsField(Lookup(common, NameOf(c)), x);
  }

  lemma ComparedField(to: map<string, Json>, common: map<string, Json>, c: string, x: string)
    ensures Field(Lookup(Compared(to, Pruned(common)), c), x)
      == if x in Shadowed(to, c) then None else Field(Lookup(common, c), x)
  {
    hide Compared;
    ComparedClass(to, Pruned(common), c);
  }

  /** The bodies the fixes leave are the old ones. */
  lemma ComparedBodied(to: map<string, Json>, common: map<string, Json>, original: map<string, Json>, c: Del.Class,
                       x: string)
    requires Bodied(common, original, c, x)
    ensures Bodied(Compared(to, Pruned(common)), original, c, x)
  {
    hide NameOf, Compared, Shadowed;
    ComparedField(to, common, NameOf(c), x);
  }

  lemma ReturnsAt(env: Environment, cs: Classes, common: map<string, Json>, to: map<string, Json>,
                  refused: set<Del.Object>, n: nat, dirty: map<string, Json>, original: map<string, Json>,
                  c: Del.Class, x: string)
    requires Regular(env) && AllReadable(cs, dirty, common, original) && Prepared(cs, to)
    requires DeleteTheorems.Rank(Del.NetPortList) <= n <= |Del.DELETABLE_CLASSES|
    requires Failing(env, cs, common, to, refused, n).Some? && Del.Partner(c).Some?
    requires Added(common, original, c, x) && Added(common, original, Del.Partner(c).value, x)
    requires NamesakeOf(NameOf(c)).Some? && PairedAt(dirty, NameOf(c), x)
    ensures var after := Posted(env, cs, dirty, Snapshot(env, cs, common, to, refused, n), original);
      var current := Compared(to, Pruned(common));
      var request, config := Request(env, cs, Pruned(common), to), NamesIn(env, current);
      after.Some? && (x in KeysOf(Lookup(after.value, NameOf(c))) <==>
        Holds(request, config, current, c, x) || Holds(request, config, current, Del.Partner(c).value, x))
  {
    hide UpTo, NameOf, ClassOf, NamesakeOf, Compared, Request, NamesIn, Remaining, Posted, Returned, Pruned, Holds;
    hide PairedAt, DeleteTheorems.Rank, Del.Partner, Bodied, Readable, Prepared;
    var q, device := Del.Partner(c).value, Pruned(common);
    var current, request := Compared(to, device), Request(env, cs, device, to);
    var w := Refusing(Starting(env, cs, device, to), refused);
    CurrentReadable(cs, common, to);
    ComparedBodied(to, common, original, c, x);
    ComparedBodied(to, common, original, q, x);
    ReturnedIff(request, NamesIn(env, current), current, original, c, x);
    ReturnedIff(request, NamesIn(env, current), current, original, q, x);
    ListReturnsIff(env, cs, current, request, w, n, dirty, original, c, x);
  }

  lemma CurrentReadable(cs: Classes, common: map<string, Json>, to: map<string, Json>)
    requires Readable(cs, common)
    ensures Readable(cs, Compared(to, Pruned(common)))
  {
    hide Compared;
    PrunedPrepared(cs, common);
    ComparedPrepared(cs, to, Pruned(common));
  }

  /** What the snapshot still holds, by what the failed declaration declared. */
  lemma HoldsIff(env: Environment, cs: Classes, common: map<string, Json>, to: map<string, Json>,
                 firewall: Del.Class, x: string)
    requires Regular(env) && Usual(cs) && Readable(cs, common) && Prepared(cs, to)
    requires firewall.FirewallAddressList? || firewall.FirewallPortList?
    requires Field(Lookup(common, NameOf(firewall)), x).Some?
    requires Field(Lookup(common, NameOf(Del.Partner(firewall).value)), x).Some?
    ensures var net, current := Del.Partner(firewall).value, Compared(to, Pruned(common));
      var request, config := Request(env, cs, Pruned(common), to), NamesIn(env, current);
      var inFirewall, inNet := x in KeysOf(Lookup(to, NameOf(firewall))), x in KeysOf(Lookup(to, NameOf(net)));
      && (Holds(request, config, current, net, x) <==> inNet && !inFirewall)
      && (Holds(request, config, current, firewall, x) <==> !inNet && (inFirewall || NameOf(net) !in to))
  {
    hide NameOf, ClassOf, NamesakeOf, Compared, Request, NamesIn, Forgotten, Pruned, Prepared, Readable, Usual;
    hide Del.Partner;
    Firewalls(firewall);
    var net := Del.Partner(firewall).value;
    ListClass(firewall);
    ListClass(net);
    PrunedPrepared(cs, common);
    PrunedKeys(common, NameOf(firewall));
    PrunedKeys(common, NameOf(net));
    ComparedField(to, common, NameOf(firewall), x);
    ComparedField(to, common, NameOf(net), x);
    PairForgotten(env, cs, Pruned(common), to, firewall, x);
  }

  /**
   * A run towards `to` fails after the lists have been processed, and is rolled back. A list that was on the device is
   * there again exactly when the failed declaration has it in one of the two classes and not in the other, or has it
   * in neither and has no network lists at all.
   */
  lemma PairRolledBackIff(env: Environment, cs: Classes, common: map<string, Json>, to: map<string, Json>,
                          refused: set<Del.Object>, n: nat, dirty: map<string, Json>, original: map<string, Json>,
                          firewall: Del.Class, c: Del.Class, x: string)
    requires Regular(env) && AllReadable(cs, dirty, common, original) && Prepared(cs, to)
    requires firewall.FirewallAddressList? || firewall.FirewallPortList?
    requires c == firewall || c == Del.Partner(firewall).value
    requires DeleteTheorems.Rank(Del.NetPortList) <= n <= |Del.DELETABLE_CLASSES|
    requires Failing(env, cs, common, to, refused, n).Some?
    requires Added(common, original, firewall, x) && Added(common, original, Del.Partner(firewall).value, x)
    requires NamesakeOf(NameOf(c)).Some? && PairedAt(dirty, NameOf(c), x)
    ensures var after := Posted(env, cs, dirty, Snapshot(env, cs, common, to, refused, n), original);
      var net := Del.Partner(firewall).value;
      var inFirewall, inNet := x in KeysOf(Lookup(to, NameOf(firewall))), x in KeysOf(Lookup(to, NameOf(net)));
      after.Some? && (x in KeysOf(Lookup(after.value, NameOf(c)))
        <==> inFirewall != inNet || (!inFirewall && NameOf(net) !in to))
  {
    hide NameOf, NamesakeOf, Compared, Request, NamesIn, Posted, Readable, Holds, Pruned, Prepared, Failing, Snapshot;
    hide PairedAt, Added, Regular, Usual, Del.Partner, DeleteTheorems.Rank;
    Firewalls(firewall);
    var net := Del.Partner(firewall).value;
    ReturnsAt(env, cs, common, to, refused, n, dirty, original, c, x);
    AddedThere(common, original, firewall, x);
    AddedThere(common, original, net, x);
    HoldsIff(env, cs, common, to, firewall, x);
  }

  // ---------------------------------------------------------------- lists that do not come back

  /** A device that refuses to delete one object the run wants to delete. */
  lemma RefusedFails(env: Environment, cs: Classes, common: map<string, Json>, to: map<string, Json>, c: Del.Class,
                     name: string)
    requires Regular(env) && Usual(cs) && Readable(cs, common) && Prepared(cs, to) && NameOf(c) in cs.truth
    requires c !in Del.GSLB_CLASSES && Del.Partner(c).None? && !c.RouteDomain? && !Del.Retained(c, name)
    requires NamesakeOf(NameOf(c)).None? && name in KeysOf(Lookup(common, NameOf(c))) && NameOf(c) !in to
    ensures DeleteTheorems.Rank(c) > 0
    ensures Failing(env, cs, common, to, {Del.Object(c, name)}, DeleteTheorems.Rank(c) - 1).Some?
    ensures Del.Processed(Request(env, cs, Pruned(common), to),
                          Refusing(Starting(env, cs, Pruned(common), to), {Del.Object(c, name)})).None?
  {
    hide NameOf, NamesakeOf, Compared, Prepared, NamesIn, Pruned, WrittenRun, ToDelete, Del.Wanted, Del.Processed;
    hide UpTo, Refusing, Del.Retained, Regular, Usual, DeleteTheorems.Consistent;
    PrunedPrepared(cs, common);
    PrunedKeys(common, NameOf(c));
    DeleteTheorems.Deletable(c);
    GetsThrough(env, cs, Pruned(common), to);
    ComparedPrepared(cs, to, Pruned(common));
    WantedNames(env, cs, Compared(to, Pruned(common)), to, c, name);
    ComparedFields(to, Pruned(common), NameOf(c), name);
    StopsThere(Request(env, cs, Pruned(common), to), Starting(env, cs, Pruned(common), to), c, name);
  }

  const FIREWALL := NameOf(Del.FirewallAddressList)
  const NET := NameOf(Del.NetAddressList)
  const VLANS := NameOf(Del.VLAN)
  const ANOTHER := Obj(map["b" := BODY])
  const BEFORE: map<string, Json> := map[FIREWALL := ONE_OBJECT, NET := ONE_OBJECT, VLANS := ONE_OBJECT]
  const STUBBORN := {Del.Object(Del.VLAN, "a")}

  lemma WitnessNames()
    ensures FIREWALL != NET && FIREWALL != VLANS && NET != VLANS
    ensures NamesakeOf(VLANS).None? && NamesakeOf(FIREWALL) == Some(NET) && NamesakeOf(NET) == Some(FIREWALL)
  {
    ListClass(Del.FirewallAddressList);
    ListClass(Del.NetAddressList);
    VlanIsOrdinary();
    OwnName(Del.FirewallAddressList, Del.NetAddressList);
    OwnName(Del.FirewallAddressList, Del.VLAN);
    OwnName(Del.NetAddressList, Del.VLAN);
  }

  lemma WitnessVlan(cs: Classes)
    requires Usual(cs)
    ensures VLANS in cs.truth && Del.VLAN !in Del.GSLB_CLASSES && Del.Partner(Del.VLAN).None?
    ensures !Del.Retained(Del.VLAN, "a") && DeleteTheorems.Rank(Del.VLAN) == 10
    ensures VLANS in BEFORE && "a" in KeysOf(Lookup(BEFORE, VLANS))
  {
  }

  /** Both classes have the list, and the original has none. */
  lemma WitnessAdded()
    ensures Added(BEFORE, map[], Del.FirewallAddressList, "a") && Added(BEFORE, map[], Del.NetAddressList, "a")
  {
    WitnessNames();
    BodiesAreNotEmpty();
    hide NameOf, NamesakeOf;
    assert Lookup(BEFORE, FIREWALL) == Some(ONE_OBJECT) && Lookup(BEFORE, NET) == Some(ONE_OBJECT);
  }

  lemma WitnessReadable(cs: Classes, device: map<string, Json>)
    requires Usual(cs) && forall c <- device :: c in {FIREWALL, NET, VLANS} && device[c] in [ONE_OBJECT, ANOTHER]
    ensures Readable(cs, device) && Prepared(cs, device)
  {
    BodiesAreNotEmpty();
    assert "b" in ANOTHER.fields;
  }

  lemma WitnessFails(env: Environment, cs: Classes, to: map<string, Json>)
    requires Regular(env) && Usual(cs)
    requires forall c <- to :: c in {FIREWALL, NET} && to[c] in [ONE_OBJECT, ANOTHER]
    ensures Prepared(cs, to) && Failing(env, cs, BEFORE, to, STUBBORN, 9).Some?
    ensures Del.Processed(Request(env, cs, Pruned(BEFORE), to),
                          Refusing(Starting(env, cs, Pruned(BEFORE), to), STUBBORN)).None?
  {
    hide NameOf, NamesakeOf, Failing, Readable, Prepared, Regular, Del.Processed, Refusing, Starting, Request, Pruned;
    WitnessNames();
    WitnessReadable(cs, to);
    WitnessReadable(cs, BEFORE);
    WitnessVlan(cs);
    RefusedFails(env, cs, BEFORE, to, Del.VLAN, "a");
  }

  /**
   * A network list is replaced by another one on a device that keeps a firewall namesake of each. A VLAN cannot be
   * deleted, so the run fails and is rolled back: the old list is in neither class.
   */
  lemma ReplacedListIsLost(env: Environment, cs: Classes)
    requires Regular(env) && Usual(cs) && !cs.Named(AUTHENTICATION)
    ensures var to := map[NET := ANOTHER];
      Failing(env, cs, BEFORE, to, STUBBORN, 9).Some?
    ensures var to := map[NET := ANOTHER];
      Del.Processed(Request(env, cs, Pruned(BEFORE), to),
                    Refusing(Starting(env, cs, Pruned(BEFORE), to), STUBBORN)).None?
    ensures var to, dirty := map[NET := ANOTHER], map[FIREWALL := ANOTHER, NET := ANOTHER, VLANS := ONE_OBJECT];
      var after := Posted(env, cs, dirty, Snapshot(env, cs, BEFORE, to, STUBBORN, 9), map[]);
      after.Some? && "a" !in KeysOf(Lookup(after.value, FIREWALL)) && "a" !in KeysOf(Lookup(after.value, NET))
  {
    var to, dirty := map[NET := ANOTHER], map[FIREWALL := ANOTHER, NET := ANOTHER, VLANS := ONE_OBJECT];
    hide NameOf, Failing, Posted, Snapshot, Request, Refusing, Starting, Del.Processed, Regular;
    ToNetOnly();
    WitnessRollback(env, cs, to, dirty);
  }

  lemma ToNetOnly()
    ensures var to, dirty := map[NET := ANOTHER], map[FIREWALL := ANOTHER, NET := ANOTHER, VLANS := ONE_OBJECT];
      && "a" !in KeysOf(Lookup(to, FIREWALL)) && "a" !in KeysOf(Lookup(to, NET))
      && Lookup(dirty, FIREWALL) == Lookup(dirty, NET)
  {
    WitnessNames();
  }

  /**
   * A list that the failed declaration declares in both classes is not in the snapshot either, because the fixes have
   * taken both entries out: the rollback deletes it from the device.
   */
  lemma DoublyDeclaredListIsDeleted(env: Environment, cs: Classes)
    requires Regular(env) && Usual(cs) && !cs.Named(AUTHENTICATION)
    ensures var to := map[FIREWALL := ONE_OBJECT, NET := ONE_OBJECT];
      Failing(env, cs, BEFORE, to, STUBBORN, 9).Some?
    ensures var to, dirty := map[FIREWALL := ONE_OBJECT, NET := ONE_OBJECT], BEFORE;
      var after := Posted(env, cs, dirty, Snapshot(env, cs, BEFORE, to, STUBBORN, 9), map[]);
      after.Some? && "a" !in KeysOf(Lookup(after.value, FIREWALL)) && "a" !in KeysOf(Lookup(after.value, NET))
  {
    WitnessRollback(env, cs, map[FIREWALL := ONE_OBJECT, NET := ONE_OBJECT], BEFORE);
  }

  lemma WitnessPaired(dirty: map<string, Json>)
    requires Lookup(dirty, FIREWALL) == Lookup(dirty, NET)
    ensures NamesakeOf(FIREWALL).Some? && PairedAt(dirty, FIREWALL, "a")
    ensures NamesakeOf(NET).Some? && PairedAt(dirty, NET, "a")
  {
    WitnessNames();
  }

  lemma LastList()
    ensures DeleteTheorems.Rank(Del.NetPortList) == 9 <= |Del.DELETABLE_CLASSES|
    ensures Del.Partner(Del.FirewallAddressList) == Some(Del.NetAddressList)
  {
  }

  lemma WitnessRollback(env: Environment, cs: Classes, to: map<string, Json>, dirty: map<string, Json>)
    requires Regular(env) && Usual(cs) && !cs.Named(AUTHENTICATION) && NET in to
    requires forall c <- to :: c in {FIREWALL, NET} && to[c] in [ONE_OBJECT, ANOTHER]
    requires forall c <- dirty :: c in {FIREWALL, NET, VLANS} && dirty[c] in [ONE_OBJECT, ANOTHER]
    requires Lookup(dirty, FIREWALL) == Lookup(dirty, NET)
    requires "a" in KeysOf(Lookup(to, FIREWALL)) <==> "a" in KeysOf(Lookup(to, NET))
    ensures Failing(env, cs, BEFORE, to, STUBBORN, 9).Some?
    ensures Del.Processed(Request(env, cs, Pruned(BEFORE), to),
                          Refusing(Starting(env, cs, Pruned(BEFORE), to), STUBBORN)).None?
    ensures var after := Posted(env, cs, dirty, Snapshot(env, cs, BEFORE, to, STUBBORN, 9), map[]);
      after.Some? && "a" !in KeysOf(Lookup(after.value, FIREWALL)) && "a" !in KeysOf(Lookup(after.value, NET))
  {
    hide NameOf, NamesakeOf, Posted, Failing, Snapshot, Readable, Prepared, Regular, Added, Del.Processed, Refusing;
    hide Starting, Request, Pruned, Del.Partner, DeleteTheorems.Rank, PairedAt;
    WitnessNames();
    WitnessReadable(cs, dirty);
    WitnessReadable(cs, BEFORE);
    WitnessReadable(cs, map[]);
    WitnessFails(env, cs, to);
    WitnessAdded();
    WitnessPaired(dirty);
    LastList();
    Firewalls(Del.FirewallAddressList);
    PairRolledBackIff(env, cs, BEFORE, to, STUBBORN, 9, dirty, map[], Del.FirewallAddressList,
                      Del.FirewallAddressList, "a");
    PairRolledBackIff(env, cs, BEFORE, to, STUBBORN, 9, dirty, map[], Del.FirewallAddressList,
                      Del.NetAddressList, "a");
  }

  /** Nor does such a declaration ever settle: however often it is posted, the next run writes the list again. */
  lemma DoublyDeclaredNeverSettles(env: Environment, cs: Classes, device: map<string, Json>)
    requires Regular(env) && Usual(cs) && Prepared(cs, device)
    ensures var to := map[FIREWALL := ONE_OBJECT, NET := ONE_OBJECT];
      var after := Carried(env, cs, device, to);
      after.Some? && NET in ToUpdate(cs, to, Compared(to, Pruned(after.value)))
  {
    var to := map[FIREWALL := ONE_OBJECT, NET := ONE_OBJECT];
    hide NameOf, NamesakeOf, Carried, Compared, Prepared, Regular, Attainable, ToUpdate;
    WitnessReadable(cs, to);
    WitnessNames();
    NetIsHandled();
    SecondRunIff(env, cs, device, to, NET);
    assert "a" in KeysOf(Lookup(to, NET)) && "a" in Shadowed(to, NET);
    var again := Compared(to, Pruned(Carried(env, cs, device, to).value));
    SilentIff(cs, again, to, NET);
    UpdateLookup(cs, to, again, NET);
  }

  lemma NetIsHandled()
    ensures Handled(NET)
  {
  }
}
