/**
 * The delete handler edits state.currentConfig while it deletes address and port lists, and that object is the
 * snapshot a rollback goes back to: what the snapshot says after the edits, and what a rollback to it leaves.
 */
module ListEdits {
  import opened Prelude
  import opened Json
  import opened DiffHandler
  import opened DiffTheorems
  import opened ClassNames
  import opened ListFixes
  import opened Refusals
  import opened Reconcile
  import opened Restore
  import Del = DeleteHandler
  import DeleteTheorems

  // ---------------------------------------------------------------- what one class forgets

  lemma ItemForgets(w: Del.World, c: Del.Class, name: string, p: Del.Class, x: string)
    requires Del.ItemDeleted(w, c, name).Some?
    ensures x in Del.NamesOf(Del.ItemDeleted(w, c, name).value.config, p)
      <==> x in Del.NamesOf(w.config, p) && !(Del.Partner(p) == Some(c) && x == name)
  {
    hide Del.Retained;
    DeleteTheorems.PartnerTwice(c);
    DeleteTheorems.PartnerTwice(p);
    if p in w.config {
      DeleteTheorems.WithoutMember(w.config[p], name, x);
    }
  }

  lemma {:induction false} ItemsForget(w: Del.World, c: Del.Class, names: seq<string>, n: nat, p: Del.Class, x: string)
    requires n <= |names| && Del.ItemsDeleted(w, c, names, n).Some?
    ensures x in Del.NamesOf(Del.ItemsDeleted(w, c, names, n).value.config, p)
      <==> x in Del.NamesOf(w.config, p) && !(Del.Partner(p) == Some(c) && x in names[..n])
  {
    hide Del.ItemDeleted, Del.NamesOf, Del.Partner;
    if n > 0 {
      ItemsForget(w, c, names, n - 1, p, x);
      ItemForgets(Del.ItemsDeleted(w, c, names, n - 1).value, c, names[n - 1], p, x);
      assert names[..n] == names[..n - 1] + [names[n - 1]];
    }
  }

  /** Deleting a class takes what it wants out of the current configuration of its partner. */
  lemma ClassForgets(request: Del.Names, w: Del.World, c: Del.Class, p: Del.Class, x: string)
    requires Del.ClassDeleted(request, w, c).Some?
    ensures x in Del.NamesOf(Del.ClassDeleted(request, w, c).value.config, p)
      <==> x in Del.NamesOf(w.config, p) && !(Del.Partner(p) == Some(c) && x in Del.Wanted(request, w.config, c))
  {
    hide Del.ItemsDeleted, Del.DomainsToDelete, Del.NamesOf, Del.Retained;
    var names := Del.Wanted(request, w.config, c);
    if c in request && !c.RouteDomain? {
      ItemsForget(w, c, names, |names|, p, x);
      assert names[..|names|] == names;
    }
  }

  /** When the partner of a list class is processed. */
  function Turn(p: Del.Class): (turn: nat)
    requires Del.Partner(p).Some?
    ensures turn < |Del.DELETABLE_CLASSES| && Del.DELETABLE_CLASSES[turn] == Del.Partner(p).value
    ensures forall i | 0 <= i < |Del.DELETABLE_CLASSES| ::
              Del.Partner(p) == Some(Del.DELETABLE_CLASSES[i]) <==> i == turn
  {
    if p.FirewallAddressList? then 7 else if p.FirewallPortList? then 8 else if p.NetAddressList? then 5 else 6
  }

  /** Until its partner's turn a list class is as it was. */
  lemma {:induction false} UnchangedBefore(request: Del.Names, w: Del.World, n: nat, p: Del.Class, x: string)
    requires Del.Partner(p).Some? && n <= Turn(p) && UpTo(request, w, n).Some?
    ensures x in Del.NamesOf(UpTo(request, w, n).value.config, p) <==> x in Del.NamesOf(w.config, p)
  {
    hide Del.ClassDeleted, Del.NamesOf, Del.Wanted, Del.Transaction, Del.GslbTargets, Turn, Del.Partner;
    if n == 0 {
      DeleteTheorems.GslbVanishes(request, w, Del.Object(p, x));
    } else {
      UnchangedBefore(request, w, n - 1, p, x);
      ClassForgets(request, UpTo(request, w, n - 1).value, Del.DELETABLE_CLASSES[n - 1], p, x);
    }
  }

  /** After its partner's turn it lacks what the partner then wanted. */
  lemma {:induction false} ForgottenAfter(request: Del.Names, w: Del.World, n: nat, p: Del.Class, x: string)
    requires Del.Partner(p).Some? && Turn(p) < n <= |Del.DELETABLE_CLASSES| && UpTo(request, w, n).Some?
    ensures UpTo(request, w, Turn(p)).Some?
    ensures x in Del.NamesOf(UpTo(request, w, n).value.config, p)
      <==> x in Del.NamesOf(w.config, p)
           && x !in Del.Wanted(request, UpTo(request, w, Turn(p)).value.config, Del.Partner(p).value)
  {
    hide Del.ClassDeleted, Del.NamesOf, Del.Wanted, Del.Transaction, Del.GslbTargets, Turn, Del.Partner;
    ClassForgets(request, UpTo(request, w, n - 1).value, Del.DELETABLE_CLASSES[n - 1], p, x);
    if n - 1 == Turn(p) {
      UnchangedBefore(request, w, n - 1, p, x);
    } else {
      ForgottenAfter(request, w, n - 1, p, x);
    }
  }

  lemma {:induction false} OthersKept(request: Del.Names, w: Del.World, n: nat, p: Del.Class, x: string)
    requires n <= |Del.DELETABLE_CLASSES| && UpTo(request, w, n).Some? && Del.Partner(p).None?
    ensures x in Del.NamesOf(UpTo(request, w, n).value.config, p) <==> x in Del.NamesOf(w.config, p)
  {
    hide Del.ClassDeleted, Del.NamesOf, Del.Wanted, Del.Transaction, Del.GslbTargets;
    if n == 0 {
      DeleteTheorems.GslbVanishes(request, w, Del.Object(p, x));
    } else {
      OthersKept(request, w, n - 1, p, x);
      ClassForgets(request, UpTo(request, w, n - 1).value, Del.DELETABLE_CLASSES[n - 1], p, x);
    }
  }

  /** All current objects of the class are to go. */
  predicate WantsAll(request: Del.Names, c: Del.Class) { c in request && request[c] == [] }

  /**
   * Whatever later class fails, the current configuration then lacks these lists: a network list that its firewall
   * namesake's class wanted to delete; and a firewall list that the network class wanted, unless it wanted all and
   * had already lost the entry.
   */
  lemma ListsForgotten(request: Del.Names, w: Del.World, n: nat, firewall: Del.Class, x: string)
    requires DeleteTheorems.Rank(Del.NetPortList) <= n <= |Del.DELETABLE_CLASSES| && UpTo(request, w, n).Some?
    requires firewall.FirewallAddressList? || firewall.FirewallPortList?
    ensures var net := Del.Partner(firewall).value;
      var config := UpTo(request, w, n).value.config;
      && (x in Del.NamesOf(config, net)
          <==> x in Del.NamesOf(w.config, net) && x !in Del.Wanted(request, w.config, firewall))
      && (x in Del.NamesOf(config, firewall)
          <==> x in Del.NamesOf(w.config, firewall)
               && !(x in Del.Wanted(request, w.config, net)
                    && (WantsAll(request, net) ==> x !in Del.Wanted(request, w.config, firewall))))
  {
    hide UpTo;
    var net := Del.Partner(firewall).value;
    assert Del.Partner(net) == Some(firewall);
    ForgottenAfter(request, w, n, net, x);
    ForgottenAfter(request, w, n, firewall, x);
    UnchangedBefore(request, w, Turn(net), firewall, x);
    ForgottenAfter(request, w, Turn(firewall), net, x);
  }

  // ---------------------------------------------------------------- the snapshot

  /** The current configuration with the names that are left. */
  function Remaining(common: map<string, Json>, config: Del.Names): map<string, Json>
  {
    map c | c in common ::
      if ClassOf(c).Some? && common[c].Obj? then
        Obj(map n | n in common[c].fields && n in Del.NamesOf(config, ClassOf(c).value) :: common[c].fields[n])
      else common[c]
  }

  lemma RemainingReadable(cs: Classes, common: map<string, Json>, config: Del.Names)
    requires Readable(cs, common)
    ensures Readable(cs, Remaining(common, config))
  {
    hide ClassOf, Del.NamesOf;
    var left := Remaining(common, config);
    forall c <- cs.truth
      ensures ClassShape(cs.Named(c), Lookup(left, c)) && (c in left && cs.Named(c) ==> left[c].Obj?)
    {
      assert ClassShape(cs.Named(c), Lookup(common, c));
    }
  }

  /** Only address and port lists leave the snapshot. */
  lemma OrdinaryRemains(env: Environment, common: map<string, Json>, request: Del.Names, w: Del.World, n: nat,
                        c: string)
    requires Regular(env) && w.config == NamesIn(env, common) && Ordinary(c)
    requires n <= |Del.DELETABLE_CLASSES| && UpTo(request, w, n).Some?
    ensures Lookup(Remaining(common, UpTo(request, w, n).value.config), c) == Lookup(common, c)
  {
    hide UpTo, NameOf;
    ClassOfName(c);
    if c in common && ClassOf(c).Some? && common[c].Obj? {
      forall x <- common[c].fields
        ensures x in Del.NamesOf(UpTo(request, w, n).value.config, ClassOf(c).value)
      {
        OthersKept(request, w, n, ClassOf(c).value, x);
      }
      var left := Lookup(Remaining(common, UpTo(request, w, n).value.config), c).value;
      SameFields(left.fields, common[c].fields);
    }
  }

  /** The edits do not change what a rollback does to any other class. */
  lemma RollbackAfterEditsIff(env: Environment, cs: Classes, common: map<string, Json>, request: Del.Names,
                              w: Del.World, n: nat, dirty: map<string, Json>, original: map<string, Json>, c: string)
    requires Regular(env) && AllReadable(cs, dirty, common, original) && c in cs.truth && Ordinary(c)
    requires NoEmptyObjects(Lookup(original, c)) && w.config == NamesIn(env, common)
    requires n <= |Del.DELETABLE_CLASSES| && UpTo(request, w, n).Some?
    ensures var snapshot := Remaining(common, UpTo(request, w, n).value.config);
      var after := Posted(env, cs, dirty, snapshot, original);
      after.Some? && (Lookup(Pruned(after.value), c) == Lookup(Pruned(common), c)
        <==> Kept(c, Lookup(common, c), Lookup(original, c))
             && Attainable(cs.Named(c), c, Lookup(Pruned(dirty), c), Lookup(Pruned(common), c)))
  {
    hide UpTo, Posted, Attainable, Ordinary, Kept, Readable, Remaining, NamesIn;
    var snapshot := Remaining(common, UpTo(request, w, n).value.config);
    OrdinaryRemains(env, common, request, w, n, c);
    RemainingReadable(cs, common, UpTo(request, w, n).value.config);
    RollbackIff(env, cs, dirty, snapshot, original, c);
    assert Lookup(Pruned(snapshot), c) == Lookup(Pruned(common), c);
  }

  // ---------------------------------------------------------------- lists in the snapshot

  /** The delete handler takes this list out of the current configuration. */
  predicate Forgotten(request: Del.Names, config: Del.Names, c: Del.Class, x: string)
  {
    match c
    case NetAddressList => x in Del.Wanted(request, config, Del.FirewallAddressList)
    case NetPortList => x in Del.Wanted(request, config, Del.FirewallPortList)
    case FirewallAddressList => FirewallForgotten(request, config, c, Del.NetAddressList, x)
    case FirewallPortList => FirewallForgotten(request, config, c, Del.NetPortList, x)
    case _ => false
  }

  /** The network class wants it, unless it wants all and has already lost its own entry. */
  predicate FirewallForgotten(request: Del.Names, config: Del.Names, firewall: Del.Class, net: Del.Class, x: string)
  {
    x in Del.Wanted(request, config, net) && (WantsAll(request, net) ==> x !in Del.Wanted(request, config, firewall))
  }

  lemma ForgottenIff(request: Del.Names, w: Del.World, n: nat, c: Del.Class, x: string)
    requires DeleteTheorems.Rank(Del.NetPortList) <= n <= |Del.DELETABLE_CLASSES| && UpTo(request, w, n).Some?
    requires Del.Partner(c).Some?
    ensures x in Del.NamesOf(UpTo(request, w, n).value.config, c)
      <==> x in Del.NamesOf(w.config, c) && !Forgotten(request, w.config, c, x)
  {
    hide UpTo, Del.Wanted, Del.NamesOf;
    if c.FirewallAddressList? || c.FirewallPortList? {
      ListsForgotten(request, w, n, c, x);
    } else {
      ListsForgotten(request, w, n, Del.Partner(c).value, x);
    }
  }

  /** The snapshot holds the lists that have not been forgotten, as they were. */
  lemma SnapshotList(env: Environment, cs: Classes, common: map<string, Json>, request: Del.Names, w: Del.World, n: nat,
                     c: Del.Class, x: string)
    requires Regular(env) && w.config == NamesIn(env, common) && Del.Partner(c).Some?
    requires DeleteTheorems.Rank(Del.NetPortList) <= n <= |Del.DELETABLE_CLASSES| && UpTo(request, w, n).Some?
    ensures Field(Lookup(Remaining(common, UpTo(request, w, n).value.config), NameOf(c)), x)
      == if Forgotten(request, w.config, c, x) then None else Field(Lookup(common, NameOf(c)), x)
  {
    ListClass(c);
    hide UpTo, NameOf, ClassOf, Forgotten, DeleteTheorems.Rank, Del.Partner;
    ForgottenIff(request, w, n, c, x);
    assert x in Del.NamesOf(w.config, c) <==> x in KeysOf(Lookup(common, NameOf(c)));
  }
}
