/**
 * inspectHandler.js, makeDeclarationFromConfig: collecting the emitted objects of one tenant under their keys, when
 * objects of different classes share a name. Objects are told apart by the position at which they are emitted.
 */
module InspectHandler {
  import opened Prelude
  import opened Text

  datatype Entry = TenantClass | Emitted(position: nat)

  const CLASS := "class"
  const INVALID := "_INVALID_"

  function InvalidName(key: string, i: nat): string { key + INVALID + Digits(i) }

  /** The tenant's declaration, the keys seen more than once, and the conflict flag. */
  datatype Collected = Collected(tenant: map<string, Entry>, duplicates: map<string, nat>, hasDuplicates: bool)

  const START := Collected(map[CLASS := TenantClass], map[], false)

  function Emit(s: Collected, key: string, position: nat): Collected
  {
    var moved :=
      if key in s.tenant then
        Collected((map k | k in s.tenant && k != key :: s.tenant[k])[InvalidName(key, 1) := s.tenant[key]],
                  s.duplicates[key := 1], true)
      else s;
    if key in moved.duplicates then
      var i := moved.duplicates[key] + 1;
      moved.(duplicates := moved.duplicates[key := i], tenant := moved.tenant[InvalidName(key, i) := Emitted(position)])
    else moved.(tenant := moved.tenant[key := Emitted(position)])
  }

  function EmitAll(keys: seq<string>): Collected
  {
    if keys == [] then START else Emit(EmitAll(keys[..|keys| - 1]), keys[|keys| - 1], |keys| - 1)
  }

  method MakeTenantDeclaration(keys: seq<string>)
    returns (tenantDeclaration: map<string, Entry>, hasDuplicates: bool)
    ensures tenantDeclaration == EmitAll(keys).tenant && hasDuplicates == EmitAll(keys).hasDuplicates
  {
    tenantDeclaration, hasDuplicates := map[CLASS := TenantClass], false;
    var duplicates: map<string, nat> := map[];
    for position := 0 to |keys|
      invariant Collected(tenantDeclaration, duplicates, hasDuplicates) == EmitAll(keys[..position])
    {
      var declKey := keys[position];
      ghost var before := EmitAll(keys[..position]);
      var targetKey := declKey;
      if declKey in tenantDeclaration {
        hasDuplicates := true;
        duplicates := duplicates[declKey := 1];
        targetKey := InvalidName(declKey, 1);
        var existing := tenantDeclaration[declKey];
        tenantDeclaration := map k | k in tenantDeclaration && k != declKey :: tenantDeclaration[k];
        tenantDeclaration := tenantDeclaration[targetKey := existing];
      }
      if declKey in duplicates {
        duplicates := duplicates[declKey := duplicates[declKey] + 1];
        targetKey := InvalidName(declKey, duplicates[declKey]);
      }
      tenantDeclaration := tenantDeclaration[targetKey := Emitted(position)];
      assert keys[..position + 1][..position] == keys[..position];
      assert Collected(tenantDeclaration, duplicates, hasDuplicates) == Emit(before, declKey, position);
    }
    assert keys[..|keys|] == keys;
  }

  // ---------------------------------------------------------------- where each object belongs

  function Count(keys: seq<string>, k: string): nat
  {
    if keys == [] then 0 else Count(keys[..|keys| - 1], k) + if keys[|keys| - 1] == k then 1 else 0
  }

  /** A key emitted once keeps its name; the i-th emission of a repeated key gets the suffix i. */
  function Target(keys: seq<string>, e: nat): string
    requires e < |keys|
  {
    if Count(keys, keys[e]) == 1 then keys[e] else InvalidName(keys[e], Count(keys[..e + 1], keys[e]))
  }

  ghost predicate Placed(keys: seq<string>, tenant: map<string, Entry>)
  {
    && CLASS in tenant && tenant[CLASS] == TenantClass
    && (forall e | 0 <= e < |keys| :: Target(keys, e) in tenant && tenant[Target(keys, e)] == Emitted(e))
    && (forall x <- tenant :: x == CLASS || exists e :: 0 <= e < |keys| && Target(keys, e) == x)
  }

  /** A name that an object of a repeated key has got. */
  ghost predicate Generated(keys: seq<string>, x: string)
  {
    exists k, i | Count(keys, k) >= 2 && 1 <= i <= Count(keys, k) :: InvalidName(k, i) == x
  }

  /** Emitting `k` after `pre` gives the i-th name generated for `k`; the second emission gives the first two. */
  predicate Gives(pre: seq<string>, k: string, i: nat)
  {
    var before := Count(pre, k);
    before >= 1 && (i == before + 1 || (before == 1 && i == 1))
  }

  /** Neither is the emitted key a generated name, nor is a name it gives the key of one object. */
  ghost predicate Smooth(pre: seq<string>, k: string)
  {
    && k != CLASS && !Generated(pre, k)
    && forall i | Gives(pre, k, i) :: Count(pre, InvalidName(k, i)) != 1
  }

  ghost predicate Clean(keys: seq<string>)
  {
    forall e | 0 <= e < |keys| :: Smooth(keys[..e], keys[e])
  }

  // ---------------------------------------------------------------- names

  lemma AfterSeparator(a: string, d: string)
    requires '_' !in d
    ensures forall i | |a| < i < |a| + 1 + |d| :: (a + "_" + d)[i] != '_'
  {
    forall i | |a| < i < |a| + 1 + |d| ensures (a + "_" + d)[i] != '_' {
      assert (a + "_" + d)[i] == d[i - |a| - 1];
    }
  }

  lemma LastSeparator(a: string, d: string, b: string, e: string)
    requires a + "_" + d == b + "_" + e && '_' !in d && '_' !in e
    ensures a == b && d == e
  {
    var s := a + "_" + d;
    assert s[|a|] == '_' && s[|b|] == '_';
    AfterSeparator(a, d);
    AfterSeparator(b, e);
    assert a == s[..|a|] && b == s[..|b|];
    assert d == s[|a| + 1..] && e == s[|b| + 1..];
  }

  lemma InvalidNameInjective(k1: string, i1: nat, k2: string, i2: nat)
    requires InvalidName(k1, i1) == InvalidName(k2, i2)
    ensures k1 == k2 && i1 == i2
  {
    var stem := "_INVALID";
    assert INVALID == stem + "_";
    assert InvalidName(k1, i1) == (k1 + stem) + "_" + Digits(i1);
    assert InvalidName(k2, i2) == (k2 + stem) + "_" + Digits(i2);
    LastSeparator(k1 + stem, Digits(i1), k2 + stem, Digits(i2));
    assert k1 == (k1 + stem)[..|k1 + stem| - |stem|] && k2 == (k2 + stem)[..|k2 + stem| - |stem|];
    DigitsInjective(i1, i2);
  }

  lemma InvalidNameIsNotClass(k: string, i: nat)
    ensures InvalidName(k, i) != CLASS
  {
    assert |INVALID| > |CLASS|;
  }

  // ---------------------------------------------------------------- counting

  lemma CountSnoc(pre: seq<string>, k: string, x: string)
    ensures Count(pre + [k], x) == Count(pre, x) + if k == x then 1 else 0
  {
    assert (pre + [k])[..|pre + [k]| - 1] == pre;
  }

  lemma {:induction false} CountIn(keys: seq<string>, k: string)
    ensures Count(keys, k) > 0 <==> k in keys
  {
    if keys != [] {
      CountIn(keys[..|keys| - 1], k);
      assert keys == keys[..|keys| - 1] + [keys[|keys| - 1]];
    }
  }

  lemma {:induction false} CountPrefix(keys: seq<string>, m: nat, k: string)
    requires m <= |keys|
    ensures Count(keys[..m], k) <= Count(keys, k)
    ensures m < |keys| && keys[m] == k ==> Count(keys[..m], k) < Count(keys, k)
  {
    if m < |keys| {
      var rest := keys[..|keys| - 1];
      CountPrefix(rest, m, k);
      assert rest[..m] == keys[..m];
    } else {
      assert keys[..m] == keys;
    }
  }

  /** The position of an emission among those of its key. */
  lemma Ordinal(keys: seq<string>, e: nat)
    requires e < |keys|
    ensures 1 <= Count(keys[..e + 1], keys[e]) <= Count(keys, keys[e])
  {
    CountPrefix(keys, e + 1, keys[e]);
    assert keys[e] in keys[..e + 1] by { assert keys[..e + 1][e] == keys[e]; }
    CountIn(keys[..e + 1], keys[e]);
  }

  lemma OnlyOnce(keys: seq<string>, i: nat, j: nat)
    requires i < j < |keys| && keys[i] == keys[j]
    ensures Count(keys, keys[i]) >= 2
  {
    CountPrefix(keys, j, keys[i]);
    CountIn(keys[..j], keys[i]);
    assert keys[..j][i] == keys[i];
  }

  /** How one more emission of `k` changes where an earlier object belongs. */
  lemma TargetExtend(pre: seq<string>, k: string, e: nat)
    requires e < |pre|
    ensures Target(pre + [k], e) ==
      if pre[e] == k && Count(pre, k) == 1 then InvalidName(k, 1) else Target(pre, e)
  {
    var keys := pre + [k];
    CountSnoc(pre, k, pre[e]);
    assert keys[..e + 1] == pre[..e + 1];
    Ordinal(pre, e);
  }

  lemma TargetLast(pre: seq<string>, k: string)
    ensures Target(pre + [k], |pre|) == if Count(pre, k) == 0 then k else InvalidName(k, Count(pre, k) + 1)
  {
    CountSnoc(pre, k, k);
    assert (pre + [k])[..|pre| + 1] == pre + [k];
  }

  // ---------------------------------------------------------------- one emission

  ghost predicate Repeats(keys: seq<string>) { exists k :: Count(keys, k) >= 2 }

  ghost predicate Counted(keys: seq<string>, s: Collected)
  {
    && (forall k :: k in s.duplicates <==> Count(keys, k) >= 2)
    && (forall k <- s.duplicates :: s.duplicates[k] == Count(keys, k))
    && (s.hasDuplicates <==> Repeats(keys))
  }

  lemma CleanPrefix(keys: seq<string>, m: nat)
    requires m <= |keys| && Clean(keys)
    ensures Clean(keys[..m])
  {
    hide Smooth;
    forall e | 0 <= e < m ensures Smooth(keys[..m][..e], keys[..m][e]) {
      assert keys[..m][..e] == keys[..e];
    }
  }

  /** A key that is not in use as a single key is not in the declaration. */
  lemma KeyFree(pre: seq<string>, k: string, tenant: map<string, Entry>)
    requires k != CLASS && !Generated(pre, k) && Placed(pre, tenant) && Count(pre, k) != 1
    ensures k !in tenant
  {
    forall e | 0 <= e < |pre| ensures Target(pre, e) != k {
      Ordinal(pre, e);
    }
  }

  /** The names about to be given are free. */
  lemma NameFree(pre: seq<string>, k: string, tenant: map<string, Entry>, i: nat)
    requires Smooth(pre, k) && Placed(pre, tenant) && Gives(pre, k, i)
    ensures InvalidName(k, i) !in tenant
  {
    var x := InvalidName(k, i);
    InvalidNameIsNotClass(k, i);
    forall e | 0 <= e < |pre| ensures Target(pre, e) != x {
      Ordinal(pre, e);
      if InvalidName(pre[e], Count(pre[..e + 1], pre[e])) == x {
        InvalidNameInjective(pre[e], Count(pre[..e + 1], pre[e]), k, i);
      }
    }
  }

  /** A first emission, or one of a key known to repeat: one entry is added under a free name. */
  lemma NewEntry(pre: seq<string>, k: string, s: Collected)
    requires Smooth(pre, k) && Placed(pre, s.tenant) && Counted(pre, s) && Count(pre, k) != 1
    ensures Target(pre + [k], |pre|) !in s.tenant
    ensures Emit(s, k, |pre|).tenant == s.tenant[Target(pre + [k], |pre|) := Emitted(|pre|)]
  {
    hide InvalidName, Generated, Placed, Target;
    KeyFree(pre, k, s.tenant);
    TargetLast(pre, k);
    if Count(pre, k) >= 2 {
      NameFree(pre, k, s.tenant, Count(pre, k) + 1);
    }
  }

  /** A second emission: the first object is moved, and the second one is added, under two free names. */
  lemma SecondEntry(pre: seq<string>, k: string, s: Collected, first: nat)
    requires Smooth(pre, k) && Placed(pre, s.tenant) && Counted(pre, s) && Count(pre, k) == 1
    requires first < |pre| && pre[first] == k
    ensures k in s.tenant && s.tenant[k] == Emitted(first) && k != CLASS
    ensures InvalidName(k, 1) !in s.tenant && InvalidName(k, 2) !in s.tenant && InvalidName(k, 1) != InvalidName(k, 2)
    ensures Emit(s, k, |pre|).tenant ==
      (map x | x in s.tenant && x != k :: s.tenant[x])
        [InvalidName(k, 1) := Emitted(first)][InvalidName(k, 2) := Emitted(|pre|)]
  {
    assert Target(pre, first) == k;
    hide InvalidName;
    NameFree(pre, k, s.tenant, 1);
    NameFree(pre, k, s.tenant, 2);
    if InvalidName(k, 1) == InvalidName(k, 2) { InvalidNameInjective(k, 1, k, 2); }
  }

  lemma SecondTarget(pre: seq<string>, k: string, first: nat, e: nat)
    requires Count(pre, k) == 1 && first < |pre| && pre[first] == k && e < |pre|
    ensures Target(pre + [k], e) == if e == first then InvalidName(k, 1) else Target(pre, e)
  {
    TargetExtend(pre, k, e);
    if e < first && pre[e] == k { OnlyOnce(pre, e, first); }
    if first < e && pre[e] == k { OnlyOnce(pre, first, e); }
  }

  /** Placed, for any list of names. */
  ghost predicate PlacedAt(targets: seq<string>, tenant: map<string, Entry>)
  {
    && CLASS in tenant && tenant[CLASS] == TenantClass
    && (forall e | 0 <= e < |targets| :: targets[e] in tenant && tenant[targets[e]] == Emitted(e))
    && (forall x <- tenant :: x == CLASS || x in targets)
  }

  function Targets(keys: seq<string>): seq<string>
  {
    seq(|keys|, e requires 0 <= e < |keys| => Target(keys, e))
  }

  lemma PlacedTargets(keys: seq<string>, tenant: map<string, Entry>)
    ensures Placed(keys, tenant) <==> PlacedAt(Targets(keys), tenant)
  {
    hide Target;
    var targets := Targets(keys);
    forall x ensures x in targets <==> exists e :: 0 <= e < |keys| && Target(keys, e) == x {
      if e :| 0 <= e < |keys| && Target(keys, e) == x {
        assert targets[e] == x;
      }
    }
    if PlacedAt(targets, tenant) {
      forall e | 0 <= e < |keys| ensures Target(keys, e) in tenant && tenant[Target(keys, e)] == Emitted(e) {
        assert targets[e] == Target(keys, e);
      }
    }
  }

  /** Moving one entry to a free name and adding another one. */
  lemma MoveEntry(targets: seq<string>, tenant: map<string, Entry>, first: nat, n1: string, n2: string)
    requires PlacedAt(targets, tenant) && first < |targets| && targets[first] != CLASS
    requires n1 !in tenant && n2 !in tenant && n1 != n2
    ensures PlacedAt(targets[first := n1] + [n2],
      (map x | x in tenant && x != targets[first] :: tenant[x])[n1 := Emitted(first)][n2 := Emitted(|targets|)])
  {
    var k := targets[first];
    var moved := targets[first := n1] + [n2];
    var after := (map x | x in tenant && x != k :: tenant[x])[n1 := Emitted(first)][n2 := Emitted(|targets|)];
    forall e | 0 <= e < |moved| ensures moved[e] in after && after[moved[e]] == Emitted(e) {
      if e < |targets| && e != first {
        assert tenant[targets[e]] == Emitted(e) && tenant[k] == Emitted(first);
      }
    }
    forall x <- after ensures x == CLASS || x in moved {
      if x == n1 {
        assert moved[first] == x;
      } else if x == n2 {
        assert moved[|targets|] == x;
      } else if x != CLASS {
        var e :| 0 <= e < |targets| && targets[e] == x;
        assert moved[e] == x;
      }
    }
  }

  lemma AddEntry(targets: seq<string>, tenant: map<string, Entry>, name: string)
    requires PlacedAt(targets, tenant) && name !in tenant
    ensures PlacedAt(targets + [name], tenant[name := Emitted(|targets|)])
  {
    var more := targets + [name];
    var after := tenant[name := Emitted(|targets|)];
    forall x <- after ensures x == CLASS || x in more {
      if x == name {
        assert more[|targets|] == x;
      } else if x != CLASS {
        var e :| 0 <= e < |targets| && targets[e] == x;
        assert more[e] == x;
      }
    }
  }

  lemma EmitNew(pre: seq<string>, k: string, s: Collected)
    requires Smooth(pre, k) && Placed(pre, s.tenant) && Counted(pre, s) && Count(pre, k) != 1
    ensures Placed(pre + [k], Emit(s, k, |pre|).tenant)
  {
    NewEntry(pre, k, s);
    hide Emit, Target, InvalidName, Smooth, Counted, Placed, PlacedAt;
    var keys := pre + [k];
    PlacedTargets(pre, s.tenant);
    AddEntry(Targets(pre), s.tenant, Target(keys, |pre|));
    forall e | 0 <= e < |pre| ensures Targets(keys)[e] == Targets(pre)[e] {
      TargetExtend(pre, k, e);
    }
    assert Targets(keys) == Targets(pre) + [Target(keys, |pre|)];
    PlacedTargets(keys, Emit(s, k, |pre|).tenant);
  }

  lemma EmitSecond(pre: seq<string>, k: string, s: Collected)
    requires Smooth(pre, k) && Placed(pre, s.tenant) && Counted(pre, s) && Count(pre, k) == 1
    ensures Placed(pre + [k], Emit(s, k, |pre|).tenant)
  {
    CountIn(pre, k);
    var first :| 0 <= first < |pre| && pre[first] == k;
    hide Emit, InvalidName, Smooth, Counted, Placed, PlacedAt;
    SecondEntry(pre, k, s, first);
    PlacedTargets(pre, s.tenant);
    SecondTargets(pre, k, first);
    MoveEntry(Targets(pre), s.tenant, first, InvalidName(k, 1), InvalidName(k, 2));
    PlacedTargets(pre + [k], Emit(s, k, |pre|).tenant);
  }

  lemma SingleTarget(pre: seq<string>, k: string, first: nat)
    requires Count(pre, k) == 1 && first < |pre| && pre[first] == k
    ensures Target(pre, first) == k
  {
    hide Count;
  }

  lemma SecondTargets(pre: seq<string>, k: string, first: nat)
    requires Count(pre, k) == 1 && first < |pre| && pre[first] == k
    ensures Targets(pre)[first] == k
    ensures Targets(pre + [k]) == Targets(pre)[first := InvalidName(k, 1)] + [InvalidName(k, 2)]
  {
    hide Count, InvalidName, Target;
    TargetLast(pre, k);
    SingleTarget(pre, k, first);
    forall e | 0 <= e < |pre| ensures Targets(pre + [k])[e] == Targets(pre)[first := InvalidName(k, 1)][e] {
      SecondTarget(pre, k, first, e);
    }
  }

  /** A key is in the declaration exactly while it has been emitted once. */
  lemma KeyUsedIff(pre: seq<string>, k: string, tenant: map<string, Entry>)
    requires Smooth(pre, k) && Placed(pre, tenant)
    ensures k in tenant <==> Count(pre, k) == 1
  {
    if Count(pre, k) == 1 {
      CountIn(pre, k);
      var first :| 0 <= first < |pre| && pre[first] == k;
      assert Target(pre, first) == k;
    } else {
      KeyFree(pre, k, tenant);
    }
  }

  lemma EmitCounts(pre: seq<string>, k: string, s: Collected)
    requires Smooth(pre, k) && Placed(pre, s.tenant) && Counted(pre, s)
    ensures Counted(pre + [k], Emit(s, k, |pre|))
  {
    hide InvalidName, Smooth, Placed;
    var keys := pre + [k];
    var after := Emit(s, k, |pre|);
    KeyUsedIff(pre, k, s.tenant);
    forall x ensures x in after.duplicates <==> Count(keys, x) >= 2 {
      CountSnoc(pre, k, x);
    }
    forall x <- after.duplicates ensures after.duplicates[x] == Count(keys, x) {
      CountSnoc(pre, k, x);
    }
    if x :| Count(pre, x) >= 2 {
      CountSnoc(pre, k, x);
    }
    CountSnoc(pre, k, k);
    if x :| Count(keys, x) >= 2 {
      CountSnoc(pre, k, x);
    }
  }

  // ---------------------------------------------------------------- main results

  /**
   * Collision renaming loses nothing: every emitted object is where it belongs and nothing else is in the declaration,
   * and the conflict flag is set exactly when some key repeats.
   */
  lemma {:induction false} EveryObjectPlaced(keys: seq<string>)
    requires Clean(keys)
    ensures Placed(keys, EmitAll(keys).tenant)
    ensures EmitAll(keys).hasDuplicates <==> Repeats(keys)
    ensures Counted(keys, EmitAll(keys))
  {
    if keys != [] {
      var pre, k := keys[..|keys| - 1], keys[|keys| - 1];
      assert keys == pre + [k];
      CleanPrefix(keys, |keys| - 1);
      EveryObjectPlaced(pre);
      EmitCounts(pre, k, EmitAll(pre));
      if Count(pre, k) == 1 {
        EmitSecond(pre, k, EmitAll(pre));
      } else {
        EmitNew(pre, k, EmitAll(pre));
      }
    }
  }

  /** Each object is stored under exactly one name. */
  lemma StoredOnce(keys: seq<string>, e: nat, x: string)
    requires Clean(keys) && e < |keys| && x in EmitAll(keys).tenant
    ensures EmitAll(keys).tenant[x] == Emitted(e) <==> x == Target(keys, e)
  {
    EveryObjectPlaced(keys);
  }

  // ---------------------------------------------------------------- what cannot be undone

  /** The object is nowhere but under longer names. */
  predicate Lost(tenant: map<string, Entry>, o: nat, length: nat)
  {
    forall x <- tenant | tenant[x] == Emitted(o) :: |x| > length
  }

  lemma LostIsMisplaced(keys: seq<string>, tenant: map<string, Entry>, o: nat)
    requires o < |keys| && Lost(tenant, o, |Target(keys, o)|)
    ensures !Placed(keys, tenant)
  {
    hide Target;
  }

  lemma EmitLost(s: Collected, k: string, position: nat, o: nat, length: nat)
    requires o != position && Lost(s.tenant, o, length)
    ensures Lost(Emit(s, k, position).tenant, o, length)
  {
    assert |InvalidName(k, 1)| > |k|;
    hide InvalidName;
  }

  /** Objects are only ever moved to longer names. */
  lemma {:induction false} LostStays(keys: seq<string>, m: nat, o: nat, length: nat)
    requires o < m <= |keys| && Lost(EmitAll(keys[..m]).tenant, o, length)
    ensures Lost(EmitAll(keys).tenant, o, length)
  {
    hide Emit, Lost;
    if m == |keys| {
      assert keys[..m] == keys;
    } else {
      var n := |keys| - 1;
      assert keys[..n][..m] == keys[..m];
      LostStays(keys[..n], m, o, length);
      EmitLost(EmitAll(keys[..n]), keys[n], n, o, length);
    }
  }

  /** An object that has got a generated name keeps it. */
  lemma GeneratedTarget(keys: seq<string>, m: nat, o: nat)
    requires o < m <= |keys| && Count(keys[..m], keys[o]) >= 2
    ensures Target(keys, o) == Target(keys[..m], o)
  {
    CountPrefix(keys, m, keys[o]);
    assert keys[..m][..o + 1] == keys[..o + 1];
  }

  /** Writing under the only name of an object moves it on. */
  lemma EmitMoves(s: Collected, k: string, position: nat, o: nat)
    requires o != position && forall x <- s.tenant | s.tenant[x] == Emitted(o) :: x == k
    ensures Lost(Emit(s, k, position).tenant, o, |k|)
  {
    assert |InvalidName(k, 1)| > |k|;
    hide InvalidName;
  }

  /** The key is a generated name: the object that has it is moved on. */
  lemma GeneratedKeyDisplaces(pre: seq<string>, k: string, s: Collected) returns (o: nat)
    requires Placed(pre, s.tenant) && Generated(pre, k)
    ensures o < |pre| && Count(pre, pre[o]) >= 2 && Target(pre, o) == k
    ensures Lost(Emit(s, k, |pre|).tenant, o, |k|)
  {
    hide Emit, Placed;
    var j, i :| Count(pre, j) >= 2 && 1 <= i <= Count(pre, j) && InvalidName(j, i) == k;
    o := Nth(pre, j, i);
    OnlyUnder(pre, s.tenant, o);
    EmitMoves(s, k, |pre|, o);
  }

  /** Writing under the only name of an object. */
  lemma EmitOverwrites(s: Collected, k: string, position: nat, o: nat, i: nat)
    requires o != position && forall x <- s.tenant | s.tenant[x] == Emitted(o) :: x == InvalidName(k, i)
    requires if k in s.tenant then i == 1 || i == 2 else k in s.duplicates && i == s.duplicates[k] + 1
    ensures forall x <- Emit(s, k, position).tenant :: Emit(s, k, position).tenant[x] != Emitted(o)
  {
    assert InvalidName(k, i) != k by { assert |InvalidName(k, i)| > |k|; }
    hide InvalidName;
  }

  /** The given name is the key of one object: that object is overwritten. */
  lemma GivenNameOverwrites(pre: seq<string>, k: string, s: Collected, i: nat) returns (o: nat)
    requires Placed(pre, s.tenant) && Counted(pre, s) && k != CLASS && !Generated(pre, k)
    requires Gives(pre, k, i) && Count(pre, InvalidName(k, i)) == 1
    ensures o < |pre|
    ensures forall x <- Emit(s, k, |pre|).tenant :: Emit(s, k, |pre|).tenant[x] != Emitted(o)
  {
    hide Emit, InvalidName, Generated;
    var x := InvalidName(k, i);
    CountIn(pre, x);
    o :| 0 <= o < |pre| && pre[o] == x;
    assert Target(pre, o) == x;
    OnlyUnder(pre, s.tenant, o);
    if Count(pre, k) == 1 {
      CountIn(pre, k);
      var first :| 0 <= first < |pre| && pre[first] == k;
      assert Target(pre, first) == k;
    } else {
      KeyFree(pre, k, s.tenant);
    }
    EmitOverwrites(s, k, |pre|, o, i);
  }

  lemma OnlyUnder(pre: seq<string>, tenant: map<string, Entry>, o: nat)
    requires Placed(pre, tenant) && o < |pre|
    ensures forall x <- tenant | tenant[x] == Emitted(o) :: x == Target(pre, o)
  {
    hide Target;
  }

  lemma EmitAllNext(keys: seq<string>, m: nat)
    requires m < |keys|
    ensures EmitAll(keys[..m + 1]) == Emit(EmitAll(keys[..m]), keys[m], m)
  {
    hide Emit;
    assert keys[..m + 1][..m] == keys[..m];
  }

  lemma ClassForGood(keys: seq<string>, m: nat)
    requires m < |keys| && keys[m] == CLASS
    ensures !Placed(keys, EmitAll(keys).tenant)
  {
    TenantClassKeptIff(keys);
  }

  lemma MovedForGood(keys: seq<string>, m: nat)
    requires m < |keys| && Placed(keys[..m], EmitAll(keys[..m]).tenant) && Generated(keys[..m], keys[m])
    requires EmitAll(keys[..m + 1]) == Emit(EmitAll(keys[..m]), keys[m], m)
    ensures !Placed(keys, EmitAll(keys).tenant)
  {
    hide Emit, EmitAll, Generated, Placed, Target, Lost;
    var o := GeneratedKeyDisplaces(keys[..m], keys[m], EmitAll(keys[..m]));
    GeneratedTarget(keys, m, o);
    LostStays(keys, m + 1, o, |keys[m]|);
    LostIsMisplaced(keys, EmitAll(keys).tenant, o);
  }

  lemma RoughName(pre: seq<string>, k: string) returns (i: nat)
    requires !Smooth(pre, k) && k != CLASS && !Generated(pre, k)
    ensures Gives(pre, k, i) && Count(pre, InvalidName(k, i)) == 1
  {
    hide Gives, InvalidName;
    i :| Gives(pre, k, i) && Count(pre, InvalidName(k, i)) == 1;
  }

  lemma OverwrittenForGood(keys: seq<string>, m: nat)
    requires m < |keys| && !Smooth(keys[..m], keys[m]) && keys[m] != CLASS && !Generated(keys[..m], keys[m])
    requires Placed(keys[..m], EmitAll(keys[..m]).tenant) && Counted(keys[..m], EmitAll(keys[..m]))
    requires EmitAll(keys[..m + 1]) == Emit(EmitAll(keys[..m]), keys[m], m)
    ensures !Placed(keys, EmitAll(keys).tenant)
  {
    hide Emit, EmitAll, Generated, Smooth, Gives, InvalidName, Counted, Placed, Target;
    var pre, k := keys[..m], keys[m];
    var i := RoughName(pre, k);
    var o := GivenNameOverwrites(pre, k, EmitAll(pre), i);
    LostStays(keys, m + 1, o, |Target(keys, o)|);
    LostIsMisplaced(keys, EmitAll(keys).tenant, o);
  }

  /** The first emission that is not smooth misplaces an object for good. */
  lemma RoughStepLoses(keys: seq<string>, m: nat)
    requires m < |keys| && Clean(keys[..m]) && !Smooth(keys[..m], keys[m])
    ensures !Placed(keys, EmitAll(keys).tenant)
  {
    hide EmitAll, Generated, Smooth, Clean, Counted, Placed;
    EveryObjectPlaced(keys[..m]);
    EmitAllNext(keys, m);
    if keys[m] == CLASS {
      ClassForGood(keys, m);
    } else if Generated(keys[..m], keys[m]) {
      MovedForGood(keys, m);
    } else {
      OverwrittenForGood(keys, m);
    }
  }

  lemma {:induction false} FirstRoughStep(keys: seq<string>) returns (m: nat)
    requires !Clean(keys)
    ensures m < |keys| && Clean(keys[..m]) && !Smooth(keys[..m], keys[m])
  {
    hide Smooth;
    var n := |keys| - 1;
    var pre := keys[..n];
    if Clean(pre) {
      m := n;
      if Smooth(keys[..n], keys[n]) {
        forall e | 0 <= e < |keys| ensures Smooth(keys[..e], keys[e]) {
          assert e < n ==> pre[..e] == keys[..e] && pre[e] == keys[e];
        }
      }
    } else {
      m := FirstRoughStep(pre);
      assert pre[..m] == keys[..m];
    }
  }

  /** Every object is where it belongs exactly when every emission is smooth. */
  lemma PlacedIff(keys: seq<string>)
    ensures Placed(keys, EmitAll(keys).tenant) <==> Clean(keys)
  {
    if Clean(keys) {
      EveryObjectPlaced(keys);
    } else {
      var m := FirstRoughStep(keys);
      RoughStepLoses(keys, m);
    }
  }

  /** The position of the i-th emission of a key. */
  lemma {:induction false} Nth(keys: seq<string>, k: string, i: nat) returns (e: nat)
    requires 1 <= i <= Count(keys, k)
    ensures e < |keys| && keys[e] == k && Count(keys[..e + 1], k) == i
  {
    var n := |keys| - 1;
    if i <= Count(keys[..n], k) {
      e := Nth(keys[..n], k, i);
      assert keys[..n][..e + 1] == keys[..e + 1];
    } else {
      e := n;
      assert keys[..e + 1] == keys;
    }
  }

  /** The declaration keeps its own class exactly when no object is called that. */
  lemma {:induction false} TenantClassKeptIff(keys: seq<string>)
    ensures "class" in EmitAll(keys).tenant <==> "class" !in keys
    ensures "class" in EmitAll(keys).duplicates <==> "class" in keys
  {
    if keys != [] {
      var n := |keys| - 1;
      TenantClassKeptIff(keys[..n]);
      assert keys == keys[..n] + [keys[n]];
      InvalidNameIsNotClass(keys[n], 1);
      forall i: nat ensures InvalidName(keys[n], i) != CLASS { InvalidNameIsNotClass(keys[n], i); }
    }
  }

  /** An object called like a generated name: the object that got the name is moved on. */
  lemma GeneratedNameDisplaces()
    ensures var keys := ["vs", "vs", "vs_INVALID_1"];
      !Clean(keys) && !Placed(keys, EmitAll(keys).tenant)
  {
    var keys := ["vs", "vs", "vs_INVALID_1"];
    assert Digits(1) == "1";
    assert InvalidName("vs", 1) == "vs_INVALID_1";
    hide Placed, InvalidName, Digits;
    assert keys[..2] == ["vs"] + ["vs"] && keys[..2][..1] == ["vs"];
    assert Count(["vs"], "vs") == 1 by { assert Count([], "vs") == 0 && ["vs"][..0] == []; }
    assert Count(keys[..2], "vs") == 2;
    assert Generated(keys[..2], keys[2]);
    PlacedIff(keys);
  }
}
