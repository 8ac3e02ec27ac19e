/** A device that refuses some deletions: up to the first class concerned the run is that of a willing device. */
module Refusals {
  import opened Prelude
  import opened DeleteHandler
  import opened DeleteTheorems

  /** After the GSLB transaction and the first `n` classes. */
  function UpTo(request: Names, w: World, n: nat): Option<World>
    requires n <= |DELETABLE_CLASSES|
  {
    var first := Transaction(w, GSLBServer, GslbTargets(request, |GSLB_CLASSES|));
    if first.None? then None else ClassesDeleted(request, first.value, n)
  }

  function Refusing(w: World, refused: set<Object>): World { w.(refused := refused) }

  function Lifted(w: Option<World>, refused: set<Object>): Option<World>
  {
    if w.None? then None else Some(Refusing(w.value, refused))
  }

  /** No refused object is one that is deleted on behalf of the class. */
  predicate Spares(refused: set<Object>, c: Class)
  {
    forall o <- refused :: o.cls != c && Partner(c) != Some(o.cls)
  }

  lemma ItemLifted(w: World, c: Class, name: string, refused: set<Object>)
    requires w.refused == {} && Spares(refused, c)
    ensures ItemDeleted(Refusing(w, refused), c, name) == Lifted(ItemDeleted(w, c, name), refused)
    ensures ItemDeleted(w, c, name).Some? ==> ItemDeleted(w, c, name).value.refused == {}
  {
    hide Retained, Vanishing;
  }

  lemma {:induction false} ItemsLifted(w: World, c: Class, names: seq<string>, n: nat, refused: set<Object>)
    requires n <= |names| && w.refused == {} && Spares(refused, c)
    ensures ItemsDeleted(Refusing(w, refused), c, names, n) == Lifted(ItemsDeleted(w, c, names, n), refused)
    ensures ItemsDeleted(w, c, names, n).Some? ==> ItemsDeleted(w, c, names, n).value.refused == {}
  {
    hide ItemDeleted, Refusing, Spares;
    if n > 0 {
      ItemsLifted(w, c, names, n - 1, refused);
      var before := ItemsDeleted(w, c, names, n - 1);
      if before.Some? {
        ItemLifted(before.value, c, names[n - 1], refused);
      }
    }
  }

  lemma TransactionLifted(w: World, during: Class, targets: seq<Object>, refused: set<Object>)
    requires w.refused == {} && forall o <- targets :: o !in refused
    ensures Transaction(Refusing(w, refused), during, targets) == Lifted(Transaction(w, during, targets), refused)
    ensures Transaction(w, during, targets).Some? ==> Transaction(w, during, targets).value.refused == {}
  {
  }

  lemma ClassLifted(request: Names, w: World, c: Class, refused: set<Object>)
    requires w.refused == {} && Spares(refused, c)
    ensures ClassDeleted(request, Refusing(w, refused), c) == Lifted(ClassDeleted(request, w, c), refused)
    ensures ClassDeleted(request, w, c).Some? ==> ClassDeleted(request, w, c).value.refused == {}
  {
    hide Retained, ItemsDeleted, Transaction, DomainsToDelete;
    if c in request && (request[c] == [] ==> c in w.config) {
      var names := Wanted(request, w.config, c);
      if c.RouteDomain? {
        forall o { DomainsMember(names, o); }
        TransactionLifted(w, c, DomainsToDelete(names), refused);
      } else {
        ItemsLifted(w, c, names, |names|, refused);
      }
    }
  }

  lemma {:induction false} ClassesLifted(request: Names, w: World, n: nat, refused: set<Object>)
    requires n <= |DELETABLE_CLASSES| && w.refused == {}
    requires forall i | 0 <= i < n :: Spares(refused, DELETABLE_CLASSES[i])
    ensures ClassesDeleted(request, Refusing(w, refused), n) == Lifted(ClassesDeleted(request, w, n), refused)
    ensures ClassesDeleted(request, w, n).Some? ==> ClassesDeleted(request, w, n).value.refused == {}
  {
    hide ClassDeleted, Refusing, Spares;
    if n > 0 {
      ClassesLifted(request, w, n - 1, refused);
      var before := ClassesDeleted(request, w, n - 1);
      if before.Some? {
        ClassLifted(request, before.value, DELETABLE_CLASSES[n - 1], refused);
      }
    }
  }

  /** Up to the first refused class the refusals make no difference. */
  lemma UpToLifted(request: Names, w: World, n: nat, refused: set<Object>)
    requires n <= |DELETABLE_CLASSES| && w.refused == {}
    requires forall i | 0 <= i < n :: Spares(refused, DELETABLE_CLASSES[i])
    requires forall o <- refused :: o.cls !in GSLB_CLASSES
    ensures UpTo(request, Refusing(w, refused), n) == Lifted(UpTo(request, w, n), refused)
  {
    hide Transaction, ClassesDeleted, Refusing, Spares;
    var targets := GslbTargets(request, |GSLB_CLASSES|);
    forall o <- targets ensures o !in refused {
      GslbMember(request, |GSLB_CLASSES|, o);
      assert GSLB_CLASSES[..|GSLB_CLASSES|] == GSLB_CLASSES;
    }
    TransactionLifted(w, GSLBServer, targets, refused);
    var first := Transaction(w, GSLBServer, targets);
    if first.Some? {
      ClassesLifted(request, first.value, n, refused);
    }
  }

  // ---------------------------------------------------------------- a refused object stops the run

  lemma {:induction false} ItemsStop(w: World, c: Class, names: seq<string>, n: nat, name: string)
    requires n <= |names| && name in names[..n] && Partner(c).None? && !Retained(c, name)
    requires Object(c, name) in w.refused
    ensures ItemsDeleted(w, c, names, n).None?
  {
    hide Retained, Vanishing;
    assert names[..n] == names[..n - 1] + [names[n - 1]];
    if names[n - 1] != name {
      ItemsStop(w, c, names, n - 1, name);
    } else {
      ItemsRefused(w, c, names, n - 1);
    }
  }

  lemma {:induction false} ItemsRefused(w: World, c: Class, names: seq<string>, n: nat)
    requires n <= |names|
    ensures ItemsDeleted(w, c, names, n).Some? ==> ItemsDeleted(w, c, names, n).value.refused == w.refused
  {
    hide Retained, Vanishing;
    if n > 0 {
      ItemsRefused(w, c, names, n - 1);
    }
  }

  lemma {:induction false} NoneStays(request: Names, w: World, n: nat, m: nat)
    requires n <= m <= |DELETABLE_CLASSES| && ClassesDeleted(request, w, n).None?
    ensures ClassesDeleted(request, w, m).None?
  {
    hide ClassDeleted;
    if n < m {
      NoneStays(request, w, n, m - 1);
    }
  }

  /** Another class leaves what a class without namesakes wants alone. */
  lemma {:induction false} StillWanted(request: Names, w: World, n: nat, c: Class, name: string)
    requires n <= |DELETABLE_CLASSES| && Partner(c).None? && UpTo(request, w, n).Some?
    requires Consistent(w) && w.trace == []
    ensures name in Wanted(request, UpTo(request, w, n).value.config, c) <==> name in Wanted(request, w.config, c)
  {
    hide Transaction, ClassesDeleted, Promised;
    GslbStep(request, w);
    var first := Transaction(w, GSLBServer, GslbTargets(request, |GSLB_CLASSES|)).value;
    ClassesPromise(request, w, first, n);
    TracksWanted(request, w, UpTo(request, w, n).value, n, c);
  }

  lemma TracksWanted(request: Names, w: World, after: World, n: nat, c: Class)
    requires n <= |DELETABLE_CLASSES| && Promised(request, w, n, after) && Partner(c).None?
    ensures Wanted(request, after.config, c) == Wanted(request, w.config, c)
  {
    hide Retained;
  }

  /** One refused object: the classes before its own get through, its own does not. */
  lemma StopsThere(request: Names, w: World, c: Class, name: string)
    requires w.refused == {} && Consistent(w) && w.trace == [] && Processed(request, w).Some?
    requires c !in GSLB_CLASSES && Partner(c).None? && !c.RouteDomain? && !Retained(c, name)
    requires name in Wanted(request, w.config, c)
    ensures var stubborn := Refusing(w, {Object(c, name)});
      UpTo(request, stubborn, Rank(c) - 1).Some? && Processed(request, stubborn).None?
  {
    hide Retained, ClassDeleted, Transaction, GslbTargets, Consistent, Wanted;
    var refused := {Object(c, name)};
    var n := Rank(c) - 1;
    Deletable(c);
    forall i | 0 <= i < n ensures Spares(refused, DELETABLE_CLASSES[i]) {
      RankOf(i);
      PartnerTwice(DELETABLE_CLASSES[i]);
    }
    Prefix(request, w, n, |DELETABLE_CLASSES|);
    UpToLifted(request, w, n, refused);
    StillWanted(request, w, n, c, name);
    ClassStops(request, Refusing(UpTo(request, w, n).value, refused), c, name);
    var first := Transaction(Refusing(w, refused), GSLBServer, GslbTargets(request, |GSLB_CLASSES|)).value;
    NoneStays(request, first, n + 1, |DELETABLE_CLASSES|);
  }

  lemma ClassStops(request: Names, w: World, c: Class, name: string)
    requires Partner(c).None? && !c.RouteDomain? && !Retained(c, name) && Object(c, name) in w.refused
    requires name in Wanted(request, w.config, c)
    ensures ClassDeleted(request, w, c).None?
  {
    hide Retained, ItemsDeleted;
    var names := Wanted(request, w.config, c);
    assert names[..|names|] == names;
    ItemsStop(w, c, names, |names|, name);
  }

  lemma {:induction false} Prefix(request: Names, w: World, n: nat, m: nat)
    requires n <= m <= |DELETABLE_CLASSES| && UpTo(request, w, m).Some?
    ensures UpTo(request, w, n).Some?
  {
    hide Transaction, ClassDeleted;
    if n < m {
      Prefix(request, w, n, m - 1);
    }
  }
}
