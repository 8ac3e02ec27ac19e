/**
 * diffHandler.js: the update and delete declarations that take the device from one parsed declaration to another.
 */
module DiffHandler {
  import opened Prelude
  import opened Json
  import opened DeepDiff
  import Text

  const COMMON := "Common"

  /** A parsed declaration: one tenant, Common; whatever else stands at the top level is a plain value. */
  predicate Parsed(d: Json)
  {
    && d.Obj? && COMMON in d.fields && d.fields[COMMON].Obj?
    && forall k <- d.fields :: k == COMMON || !d.fields[k].Obj?
  }

  function CommonOf(d: Json): map<string, Json>
    requires Parsed(d)
  {
    d.fields[COMMON].fields
  }

  /** The one object at the top level is called Common. */
  lemma TheTenant(d: Json)
    requires Parsed(d)
    ensures Field(Some(d), "Common") == Some(Obj(CommonOf(d)))
    ensures forall k <- d.fields | k != "Common" :: !d.fields[k].Obj?
  {
  }

  /** The classes the handler is the source of truth for, and the classes without object names. */
  datatype Classes = Classes(truth: set<string>, nameless: set<string>)
  {
    predicate Named(c: string) { c !in nameless }
  }

  // ---------------------------------------------------------------- what is to be updated and deleted

  function Indexed(items: seq<Json>): map<string, Json>
  {
    if items == [] then map[]
    else Indexed(items[..|items| - 1])[Text.Digits(|items| - 1) := items[|items| - 1]]
  }

  /** `typeof` of an array is 'object', so arrays are copied into plain objects; other scalars are dropped. */
  function Copied(j: Json): Option<Json>
  {
    match j
    case Str(s) => Some(j)
    case Obj(m) => Some(j)
    case Arr(items) => Some(Obj(Indexed(items)))
    case Null => Some(EMPTY)
    case _ => None
  }

  /** The entry for one class of truth in the update declaration. */
  function UpdateOf(named: bool, f: Option<Json>, t: Option<Json>): Option<Json>
  {
    if f == t then None
    else if t.None? then Some(EMPTY)
    else match t.value
      case Str(s) => t
      case Arr(items) => t
      case Obj(tm) =>
        if !named then t
        else Some(Obj(map n | n in KeysOf(f) + tm.Keys && Field(f, n) != Lookup(tm, n) ::
                        if n in tm then tm[n] else EMPTY))
      case _ => Some(EMPTY)
  }

  /** The entry for one class of truth in the delete declaration; empty for a class that vanished altogether. */
  function DeleteOf(f: Option<Json>, t: Option<Json>): Option<Json>
  {
    if f.None? then None
    else if t.None? then Some(EMPTY)
    else if f.value.Obj? && t.value.Obj? && f.value.fields.Keys - t.value.fields.Keys != {} then
      Some(Obj(map n | n in f.value.fields.Keys - t.value.fields.Keys :: EMPTY))
    else None
  }

  function Updates(cs: Classes, to: map<string, Json>, from: map<string, Json>): map<string, Json>
  {
    map c | c in cs.truth && UpdateOf(cs.Named(c), Lookup(from, c), Lookup(to, c)).Some? ::
      UpdateOf(cs.Named(c), Lookup(from, c), Lookup(to, c)).value
  }

  function Uninteresting(cs: Classes, to: map<string, Json>): map<string, Json>
  {
    map c | c in to && c !in cs.truth && Copied(to[c]).Some? :: Copied(to[c]).value
  }

  function ToUpdate(cs: Classes, to: map<string, Json>, from: map<string, Json>): map<string, Json>
  {
    Uninteresting(cs, to) + Updates(cs, to, from)
  }

  function ToDelete(cs: Classes, to: map<string, Json>, from: map<string, Json>): map<string, Json>
  {
    map c | c in cs.truth && DeleteOf(Lookup(from, c), Lookup(to, c)).Some? ::
      DeleteOf(Lookup(from, c), Lookup(to, c)).value
  }

  /** The names in the delete declaration of a class that survives are those of the objects that vanish. */
  lemma DeletedNames(f: Option<Json>, t: Json)
    requires t.Obj?
    ensures KeysOf(DeleteOf(f, Some(t))) == KeysOf(f) - t.fields.Keys
    ensures DeleteOf(f, Some(t)) != Some(EMPTY)
  {
    if n :| n in KeysOf(f) - t.fields.Keys {
      assert n in KeysOf(DeleteOf(f, Some(t)));
    }
  }

  lemma SameClass(cs: Classes, from: map<string, Json>, to: map<string, Json>, c: string)
    requires c in cs.truth && Lookup(from, c) == Lookup(to, c)
    ensures c !in ToDelete(cs, to, from) && c !in ToUpdate(cs, to, from)
  {
    if c in to && to[c].Obj? {
      DeletedNames(Lookup(from, c), to[c]);
      assert DeleteOf(Lookup(from, c), Lookup(to, c)).None?;
    }
  }

  /**
   * The objects of a named class that the update declaration mentions are exactly those that differ; the ones that
   * vanish are mentioned with an empty body only, and are the only ones the delete declaration names.
   */
  ghost predicate OnlyWhatChanged(cs: Classes, to: map<string, Json>, from: map<string, Json>,
                                  update: map<string, Json>, delete: map<string, Json>)
  {
    forall c <- cs.truth, n | c !in cs.nameless && c in to && to[c].Obj? ::
      && Field(Lookup(update, c), n) == Mentioned(Field(Lookup(from, c), n), Lookup(to[c].fields, n))
      && Field(Lookup(delete, c), n) ==
           if Field(Lookup(from, c), n).Some? && Lookup(to[c].fields, n).None? then Some(EMPTY) else None
  }

  function Mentioned(before: Option<Json>, after: Option<Json>): Option<Json>
  {
    if before == after then None else if after.None? then Some(EMPTY) else after
  }

  /**
   * Classes outside the truth are copied whatever the device holds: text and objects unchanged, arrays as objects with
   * their indices for names, null as an empty object; numbers and booleans are dropped.
   */
  ghost predicate PassesThrough(cs: Classes, to: map<string, Json>, update: map<string, Json>,
                                delete: map<string, Json>)
  {
    forall c <- to | c !in cs.truth ::
      && (Lookup(update, c) == Some(to[c]) <==> to[c].Str? || to[c].Obj?)
      && (to[c].Arr? ==> c in update && update[c].Obj? && IndexedBy(update[c].fields, to[c].items))
      && (to[c].Null? ==> Lookup(update, c) == Some(EMPTY))
      && (to[c].Num? || to[c].Bool? ==> c !in update)
      && c !in delete
  }

  ghost predicate IndexedBy(fields: map<string, Json>, items: seq<Json>)
  {
    && (forall i | 0 <= i < |items| :: Lookup(fields, Text.Digits(i)) == Some(items[i]))
    && (forall k <- fields :: exists i | 0 <= i < |items| :: Text.Digits(i) == k)
  }

  lemma {:induction false} IndexedKey(items: seq<Json>, k: string)
    ensures k in Indexed(items) <==> exists i | 0 <= i < |items| :: Text.Digits(i) == k
  {
    hide Text.Digits;
    if items != [] {
      var n := |items| - 1;
      IndexedKey(items[..n], k);
      if k in Indexed(items) && k !in Indexed(items[..n]) {
        assert Text.Digits(n) == k;
      }
      if i :| 0 <= i < |items| && Text.Digits(i) == k {
        if i < n {
          assert 0 <= i < |items[..n]| && Text.Digits(i) == k;
          assert k in Indexed(items[..n]);
        } else {
          assert Text.Digits(n) == k;
        }
      }
    }
  }

  lemma {:induction false} IndexedItem(items: seq<Json>, i: nat)
    requires i < |items|
    ensures Lookup(Indexed(items), Text.Digits(i)) == Some(items[i])
  {
    hide Text.Digits;
    var n := |items| - 1;
    if i < n {
      IndexedItem(items[..n], i);
      if Text.Digits(i) == Text.Digits(n) { Text.DigitsInjective(i, n); }
    }
  }

  lemma IndexedIsIndexedBy(items: seq<Json>)
    ensures IndexedBy(Indexed(items), items)
  {
    hide Indexed, Text.Digits;
    forall i | 0 <= i < |items| ensures Lookup(Indexed(items), Text.Digits(i)) == Some(items[i]) {
      IndexedItem(items, i);
    }
    forall k <- Indexed(items) ensures exists i | 0 <= i < |items| :: Text.Digits(i) == k {
      IndexedKey(items, k);
    }
  }

  lemma Minimal(cs: Classes, to: map<string, Json>, from: map<string, Json>)
    ensures OnlyWhatChanged(cs, to, from, ToUpdate(cs, to, from), ToDelete(cs, to, from))
    ensures PassesThrough(cs, to, ToUpdate(cs, to, from), ToDelete(cs, to, from))
  {
    forall c <- cs.truth, n | cs.Named(c) && c in to && to[c].Obj?
      ensures Field(Lookup(ToUpdate(cs, to, from), c), n)
        == Mentioned(Field(Lookup(from, c), n), Lookup(to[c].fields, n))
      ensures Field(Lookup(ToDelete(cs, to, from), c), n) ==
        if Field(Lookup(from, c), n).Some? && Lookup(to[c].fields, n).None? then Some(EMPTY) else None
    {
      DeletedNames(Lookup(from, c), to[c]);
      assert n in KeysOf(DeleteOf(Lookup(from, c), Some(to[c])))
        <==> n in KeysOf(Lookup(from, c)) && n !in to[c].fields;
      if Lookup(from, c) == Some(to[c]) {
        SameClass(cs, from, to, c);
      }
    }
    OthersPass(cs, to, from);
  }

  lemma OthersPass(cs: Classes, to: map<string, Json>, from: map<string, Json>)
    ensures PassesThrough(cs, to, ToUpdate(cs, to, from), ToDelete(cs, to, from))
  {
    hide Indexed, IndexedBy, UpdateOf, DeleteOf;
    forall c <- to | c !in cs.truth && to[c].Arr? ensures IndexedBy(Indexed(to[c].items), to[c].items) {
      IndexedIsIndexedBy(to[c].items);
    }
  }

  /** What a class may look like: text, a list, or an object; in a named class an object of non-empty-named objects. */
  predicate ClassShape(named: bool, j: Option<Json>)
  {
    j.None? || j.value.Str? || j.value.Arr? ||
    (j.value.Obj? && (named ==> forall n <- j.value.fields :: n != "" && j.value.fields[n].Obj?))
  }

  ghost predicate Shaped(cs: Classes, common: map<string, Json>)
  {
    forall c <- cs.truth :: ClassShape(cs.Named(c), Lookup(common, c))
  }

  // ---------------------------------------------------------------- recording one edit

  /** The edits that count: those of a class of truth. */
  predicate Counts(cs: Classes, p: Path) { |p| >= 2 && p[1] in cs.truth }

  /** `Object.keys(diff.rhs)` when `diff.rhs` is truthy. */
  function RhsKeys(change: Change): Option<set<string>>
  {
    if change.Deleted? then None
    else match change.rhs
      case Obj(m) => Some(m.Keys)
      case Arr(items) => Some(set i | 0 <= i < |items| :: Text.Digits(i))
      case Str(s) => if s == "" then None else Some(set i | 0 <= i < |s| :: Text.Digits(i))
      case Num(n) => if n == 0 then None else Some({})
      case Bool(b) => if b then Some({}) else None
      case Null => None
  }

  /** The list of touched names of a class, as a set: it is only used to copy each of them. */
  function RecordNames(cs: Classes, names: map<string, set<string>>, diff: Edit): map<string, set<string>>
    requires |diff.path| >= 2
  {
    var c := diff.path[1];
    var objectNames :=
      if cs.Named(c) && |diff.path| > 2 && diff.path[2] != "" then Some({diff.path[2]}) else RhsKeys(diff.change);
    var before := if c in names then names[c] else {};
    names[c := if objectNames.Some? then before + objectNames.value else {}]
  }

  function RecordDelete(deletes: map<string, Json>, diff: Edit): map<string, Json>
    requires |diff.path| >= 2
  {
    var c := diff.path[1];
    if !diff.change.Deleted? || |diff.path| > 3 then deletes
    else
      var before := if c in deletes && deletes[c].Obj? then deletes[c] else EMPTY;
      deletes[c := if |diff.path| == 3 then Obj(before.fields[diff.path[2] := EMPTY]) else before]
  }

  // ---------------------------------------------------------------- what the records mean

  /** An edit at or below the object `n` of class `c` has been applied. */
  ghost predicate Touched(to: Json, S: set<Path>, c: string, n: string)
    requires Parsed(to)
  {
    || (exists p <- S :: |p| > 2 && p[1] == c && p[2] == n)
    || ([COMMON, c] in S && n in KeysOf(Lookup(CommonOf(to), c)))
  }

  predicate ObjectClass(to: Json, c: string)
    requires Parsed(to)
  {
    Lookup(CommonOf(to), c).None? || CommonOf(to)[c].Obj?
  }

  ghost predicate NamesRecorded(cs: Classes, to: Json, S: set<Path>, names: map<string, set<string>>)
    requires Parsed(to)
  {
    && (forall c :: c in names <==> exists p <- S :: |p| >= 2 && p[1] == c)
    && (forall c <- names, n | cs.Named(c) && ObjectClass(to, c) :: n in names[c] <==> Touched(to, S, c, n))
  }

  ghost predicate WholeDeleted(from: Json, to: Json, S: set<Path>, c: string)
  {
    [COMMON, c] in S && EditAt(from, Some(to), [COMMON, c]) == Some(Deleted)
  }

  ghost predicate NameDeleted(from: Json, to: Json, S: set<Path>, c: string, n: string)
  {
    [COMMON, c, n] in S && EditAt(from, Some(to), [COMMON, c, n]) == Some(Deleted)
  }

  ghost predicate DeletesRecorded(from: Json, to: Json, S: set<Path>, deletes: map<string, Json>)
  {
    && (forall c :: c in deletes <==> SomeDeleted(from, to, S, c))
    && (forall c <- deletes :: deletes[c].Obj?)
    && (forall c <- deletes, n :: n in deletes[c].fields <==> NameDeleted(from, to, S, c, n))
    && (forall c <- deletes, n <- deletes[c].fields :: deletes[c].fields[n] == EMPTY)
  }

  /** No edit lies below another one. */
  lemma {:induction false} PrefixFree(f: Json, t: Option<Json>, p: Path, q: Path)
    requires EditAt(f, t, p).Some? && EditAt(f, t, p + q).Some?
    ensures q == []
    decreases |p|
  {
    if p == [] {
      assert p + q == q;
    } else if p[0] in f.fields {
      assert (p + q)[1..] == p[1..] + q;
      PrefixFree(f.fields[p[0]], Lookup(t.value.fields, p[0]), p[1..], q);
    }
  }

  /** Edits of length two and more lie in Common. */
  lemma EditsInCommon(from: Json, to: Json, p: Path)
    requires Parsed(from) && Parsed(to) && EditAt(from, Some(to), p).Some? && |p| >= 2
    ensures p[0] == COMMON
  {
    assert p[1..] != [];
  }

  /** An edit of a class is an edit of Common, and so on down. */
  lemma ClassEdit(from: Json, to: Json, c: string, q: Path)
    requires Parsed(from) && Parsed(to)
    ensures EditAt(from, Some(to), [COMMON, c] + q) ==
      if c in CommonOf(from) then EditAt(CommonOf(from)[c], Lookup(CommonOf(to), c), q)
      else if c in CommonOf(to) && q == [] then Some(New(CommonOf(to)[c]))
      else None
  {
    var p := [COMMON, c] + q;
    assert p[1..] == [c] + q && p[1..][1..] == q;
  }

  lemma SplitPath(p: Path, n: nat)
    requires n <= |p|
    ensures p == p[..n] + p[n..]
  {
  }

  /** In a named class whose target is an object, deep edits go through a non-empty name. */
  lemma DeepEditName(cs: Classes, from: Json, to: Json, p: Path)
    requires Parsed(from) && Parsed(to) && Shaped(cs, CommonOf(from)) && Shaped(cs, CommonOf(to))
    requires Counts(cs, p) && |p| > 2 && EditAt(from, Some(to), p).Some? && cs.Named(p[1])
    ensures p[2] != ""
  {
    EditsInCommon(from, to, p);
    SplitPath(p, 2);
    assert p[..2] == [COMMON, p[1]];
    ClassEdit(from, to, p[1], p[2..]);
    var c := p[1];
    assert ClassShape(true, Lookup(CommonOf(from), c)) && ClassShape(true, Lookup(CommonOf(to), c));
    assert p[2..][0] == p[2];
  }

  /** An edit of the class as a whole excludes every other edit of the class. */
  lemma WholeClassEdit(from: Json, to: Json, S: set<Path>, p: Path, c: string)
    requires Parsed(from) && Parsed(to) && EditPaths(from, Some(to), S) && p == [COMMON, c] && p !in S
    requires EditAt(from, Some(to), p).Some?
    ensures forall q <- S | |q| >= 2 :: q[1] != c
  {
    forall q <- S | |q| >= 2 && q[1] == c ensures q == p {
      EditsInCommon(from, to, q);
      SplitPath(q, 2);
      assert q[..2] == p;
      PrefixFree(from, Some(to), p, q[2..]);
    }
  }

  lemma NamesStepDeep(cs: Classes, from: Json, to: Json, S: set<Path>, names: map<string, set<string>>, diff: Edit)
    requires Parsed(to) && NamesRecorded(cs, to, S, names)
    requires |diff.path| > 2 && (cs.Named(diff.path[1]) ==> diff.path[2] != "")
    ensures NamesRecorded(cs, to, S + {diff.path}, RecordNames(cs, names, diff))
  {
    var p := diff.path;
    var c := p[1];
    var after := RecordNames(cs, names, diff);
    KeysStep(S, p, names.Keys);
    forall x, n | x in after && cs.Named(x) && ObjectClass(to, x)
      ensures n in after[x] <==> Touched(to, S + {p}, x, n)
    {
      TouchedAdd(to, S, p, x, n);
      if x == c && c !in names {
        assert [COMMON, c][1] == c;
      }
    }
  }

  lemma KeysStep(S: set<Path>, p: Path, keys: set<string>)
    requires |p| >= 2 && forall c :: c in keys <==> exists q <- S :: |q| >= 2 && q[1] == c
    ensures forall c :: c in keys + {p[1]} <==> exists q <- S + {p} :: |q| >= 2 && q[1] == c
  {
    forall c ensures c in keys + {p[1]} <==> exists q <- S + {p} :: |q| >= 2 && q[1] == c {
      if c == p[1] {
        assert p in S + {p};
      } else if c in keys {
        var q :| q in S && |q| >= 2 && q[1] == c;
        assert q in S + {p};
      }
    }
  }

  lemma TouchedAdd(to: Json, S: set<Path>, p: Path, c: string, n: string)
    requires Parsed(to) && |p| >= 2
    ensures Touched(to, S + {p}, c, n) <==> (Touched(to, S, c, n)
      || (|p| > 2 && p[1] == c && p[2] == n) || (p == [COMMON, c] && n in KeysOf(Lookup(CommonOf(to), c))))
  {
    if |p| > 2 && p[1] == c && p[2] == n {
      assert p in S + {p};
    }
    if exists q <- S :: |q| > 2 && q[1] == c && q[2] == n {
      var q :| q in S && |q| > 2 && q[1] == c && q[2] == n;
      assert q in S + {p};
    }
  }

  lemma NamesStepWhole(cs: Classes, from: Json, to: Json, S: set<Path>, names: map<string, set<string>>, diff: Edit)
    requires Parsed(from) && Parsed(to) && EditPaths(from, Some(to), S) && NamesRecorded(cs, to, S, names)
    requires |diff.path| == 2 && diff.path[0] == COMMON && diff.path !in S
    requires EditAt(from, Some(to), diff.path) == Some(diff.change)
    ensures NamesRecorded(cs, to, S + {diff.path}, RecordNames(cs, names, diff))
  {
    var p := diff.path;
    var c := p[1];
    var after := RecordNames(cs, names, diff);
    assert p == [COMMON, c];
    WholeClassEdit(from, to, S, p, c);
    KeysStep(S, p, names.Keys);
    ClassEdit(from, to, c, []);
    assert p == [COMMON, c] + [];
    forall x, n | x in after && cs.Named(x) && ObjectClass(to, x)
      ensures n in after[x] <==> Touched(to, S + {p}, x, n)
    {
      TouchedAdd(to, S, p, x, n);
    }
  }

  lemma NamesStep(cs: Classes, from: Json, to: Json, S: set<Path>, names: map<string, set<string>>, diff: Edit)
    requires Parsed(from) && Parsed(to) && Shaped(cs, CommonOf(from)) && Shaped(cs, CommonOf(to))
    requires EditPaths(from, Some(to), S) && NamesRecorded(cs, to, S, names)
    requires Counts(cs, diff.path) && diff.path !in S && EditAt(from, Some(to), diff.path) == Some(diff.change)
    ensures NamesRecorded(cs, to, S + {diff.path}, RecordNames(cs, names, diff))
  {
    EditsInCommon(from, to, diff.path);
    if |diff.path| > 2 {
      if cs.Named(diff.path[1]) { DeepEditName(cs, from, to, diff.path); }
      NamesStepDeep(cs, from, to, S, names, diff);
    } else {
      NamesStepWhole(cs, from, to, S, names, diff);
    }
  }

  lemma DeletedAdd(from: Json, to: Json, S: set<Path>, p: Path, c: string, n: string)
    ensures WholeDeleted(from, to, S + {p}, c) <==>
      WholeDeleted(from, to, S, c) || (p == [COMMON, c] && EditAt(from, Some(to), p) == Some(Deleted))
    ensures NameDeleted(from, to, S + {p}, c, n) <==>
      NameDeleted(from, to, S, c, n) || (p == [COMMON, c, n] && EditAt(from, Some(to), p) == Some(Deleted))
  {
  }

  ghost predicate SomeDeleted(from: Json, to: Json, S: set<Path>, c: string)
  {
    WholeDeleted(from, to, S, c) || exists n :: NameDeleted(from, to, S, c, n)
  }

  lemma SomeDeletedAdd(from: Json, to: Json, S: set<Path>, p: Path, c: string)
    requires |p| >= 2 && p[0] == COMMON
    ensures SomeDeleted(from, to, S + {p}, c) <==>
      SomeDeleted(from, to, S, c) || (p[1] == c && |p| <= 3 && EditAt(from, Some(to), p) == Some(Deleted))
  {
    forall n { DeletedAdd(from, to, S, p, c, n); }
    if p[1] == c && |p| == 3 && EditAt(from, Some(to), p) == Some(Deleted) {
      assert p == [COMMON, c, p[2]];
      assert NameDeleted(from, to, S + {p}, c, p[2]);
    }
    if p[1] == c && |p| == 2 {
      assert p == [COMMON, c];
    }
    if exists n :: NameDeleted(from, to, S, c, n) {
      var n :| NameDeleted(from, to, S, c, n);
      assert NameDeleted(from, to, S + {p}, c, n);
    }
    if exists n :: NameDeleted(from, to, S + {p}, c, n) {
      var n :| NameDeleted(from, to, S + {p}, c, n);
      assert NameDeleted(from, to, S, c, n) || p == [COMMON, c, n];
    }
  }

  lemma DeletesStep(from: Json, to: Json, S: set<Path>, deletes: map<string, Json>, diff: Edit)
    requires Parsed(from) && Parsed(to) && DeletesRecorded(from, to, S, deletes)
    requires |diff.path| >= 2 && EditAt(from, Some(to), diff.path) == Some(diff.change)
    ensures DeletesRecorded(from, to, S + {diff.path}, RecordDelete(deletes, diff))
  {
    var p := diff.path;
    var after := RecordDelete(deletes, diff);
    EditsInCommon(from, to, p);
    forall c ensures c in after <==> SomeDeleted(from, to, S + {p}, c) {
      SomeDeletedAdd(from, to, S, p, c);
    }
    forall c, n | c in after ensures n in after[c].fields <==> NameDeleted(from, to, S + {p}, c, n) {
      DeletedAdd(from, to, S, p, c, n);
      if c !in deletes {
        assert !SomeDeleted(from, to, S, c);
      }
      if |p| == 3 {
        assert p == [COMMON, p[1], p[2]];
      }
    }
  }

  // ---------------------------------------------------------------- when every edit has been recorded

  /** The paths of every edit that counts. */
  ghost predicate AllEdits(cs: Classes, from: Json, to: Json, S: set<Path>)
  {
    forall p :: p in S <==> Counts(cs, p) && EditAt(from, Some(to), p).Some?
  }

  lemma ClassPath(cs: Classes, from: Json, to: Json, S: set<Path>, c: string, q: Path)
    requires Parsed(from) && Parsed(to) && AllEdits(cs, from, to, S) && c in cs.truth
    ensures [COMMON, c] + q in S <==>
      if c in CommonOf(from) then EditAt(CommonOf(from)[c], Lookup(CommonOf(to), c), q).Some?
      else c in CommonOf(to) && q == []
  {
    ClassEdit(from, to, c, q);
    assert Counts(cs, [COMMON, c] + q);
  }

  lemma BelowCommon(c: string, q: Path)
    ensures [COMMON, c] + q == [COMMON] + ([c] + q)
  {
  }

  /** The patched declaration agrees with the target on every class of truth. */
  lemma ClassPatched(cs: Classes, from: Json, to: Json, S: set<Path>, c: string)
    requires Parsed(from) && Parsed(to) && AllEdits(cs, from, to, S) && c in cs.truth
    ensures var j := Patched(from, Some(to), S);
      && j.Some? && j.value.Obj? && COMMON in j.value.fields && j.value.fields[COMMON].Obj?
      && Lookup(j.value.fields[COMMON].fields, c) == Lookup(CommonOf(to), c)
  {
    var common := Tails(S, COMMON);
    TailMember(S, COMMON, []);
    PatchedField(from, Some(to), S, COMMON);
    PatchedField(from.fields[COMMON], Some(to.fields[COMMON]), common, c);
    ClassPath(cs, from, to, S, c, []);
    TailMember(S, COMMON, [c]);
    BelowCommon(c, []);
    assert [c] + [] == [c];
    if c in CommonOf(from) {
      forall q | EditAt(CommonOf(from)[c], Lookup(CommonOf(to), c), q).Some? ensures q in Tails(common, c) {
        ClassPath(cs, from, to, S, c, q);
        BelowCommon(c, q);
        TailMember(S, COMMON, [c] + q);
        TailMember(common, c, q);
      }
      PatchedAll(CommonOf(from)[c], Lookup(CommonOf(to), c), Tails(common, c));
    }
  }

  /** Some edit touches a class of truth exactly when the class differs. */
  lemma ClassDiffers(cs: Classes, from: Json, to: Json, S: set<Path>, c: string)
    requires Parsed(from) && Parsed(to) && AllEdits(cs, from, to, S) && c in cs.truth
    ensures (exists p <- S :: |p| >= 2 && p[1] == c) <==> Lookup(CommonOf(from), c) != Lookup(CommonOf(to), c)
  {
    if exists p <- S :: |p| >= 2 && p[1] == c {
      var p :| p in S && |p| >= 2 && p[1] == c;
      EditsInCommon(from, to, p);
      SplitPath(p, 2);
      assert p[..2] == [COMMON, c];
      ClassPath(cs, from, to, S, c, p[2..]);
      if c in CommonOf(from) {
        DiffersIff(CommonOf(from)[c], Lookup(CommonOf(to), c));
      }
    } else if c in CommonOf(from) {
      forall q ensures EditAt(CommonOf(from)[c], Lookup(CommonOf(to), c), q).None? {
        ClassPath(cs, from, to, S, c, q);
        assert ([COMMON, c] + q)[1] == c;
      }
      DiffersIff(CommonOf(from)[c], Lookup(CommonOf(to), c));
    } else {
      ClassPath(cs, from, to, S, c, []);
      assert ([COMMON, c] + [])[1] == c;
    }
  }

  /** Within an object class, the touched names are those whose objects differ. */
  lemma NameDiffers(cs: Classes, from: Json, to: Json, S: set<Path>, c: string, n: string)
    requires Parsed(from) && Parsed(to) && AllEdits(cs, from, to, S) && c in cs.truth
    requires c in CommonOf(to) && CommonOf(to)[c].Obj?
    ensures Touched(to, S, c, n) <==> Field(Lookup(CommonOf(from), c), n) != Lookup(CommonOf(to)[c].fields, n)
  {
    var f := Lookup(CommonOf(from), c);
    var t := CommonOf(to)[c];
    ClassPath(cs, from, to, S, c, []);
    assert [COMMON, c] + [] == [COMMON, c];
    if f.Some? && f.value.Obj? {
      NameDiffersBelow(cs, from, to, S, c, n);
    } else {
      forall p <- S | |p| > 2 ensures p[1] != c {
        if p[1] == c {
          EditsInCommon(from, to, p);
          SplitPath(p, 2);
          assert p[..2] == [COMMON, c];
          ClassPath(cs, from, to, S, c, p[2..]);
        }
      }
    }
  }

  lemma NameDiffersBelow(cs: Classes, from: Json, to: Json, S: set<Path>, c: string, n: string)
    requires Parsed(from) && Parsed(to) && AllEdits(cs, from, to, S) && c in cs.truth
    requires c in CommonOf(to) && CommonOf(to)[c].Obj? && c in CommonOf(from) && CommonOf(from)[c].Obj?
    ensures (exists p <- S :: |p| > 2 && p[1] == c && p[2] == n)
      <==> Lookup(CommonOf(from)[c].fields, n) != Lookup(CommonOf(to)[c].fields, n)
  {
    var fm := CommonOf(from)[c].fields;
    var tm := CommonOf(to)[c].fields;
    if exists p <- S :: |p| > 2 && p[1] == c && p[2] == n {
      var p :| p in S && |p| > 2 && p[1] == c && p[2] == n;
      EditsInCommon(from, to, p);
      SplitPath(p, 2);
      assert p[..2] == [COMMON, c] && p[2..][0] == n;
      ClassPath(cs, from, to, S, c, p[2..]);
      if n in fm {
        assert EditAt(fm[n], Lookup(tm, n), p[2..][1..]).Some?;
        DiffersIff(fm[n], Lookup(tm, n));
      }
    } else if n in fm {
      forall q ensures EditAt(fm[n], Lookup(tm, n), q).None? {
        ClassPath(cs, from, to, S, c, [n] + q);
        assert ([n] + q)[1..] == q;
        assert ([COMMON, c] + ([n] + q))[2] == n && ([COMMON, c] + ([n] + q))[1] == c;
      }
      DiffersIff(fm[n], Lookup(tm, n));
    } else {
      ClassPath(cs, from, to, S, c, [n]);
      assert ([COMMON, c] + [n])[2] == n && ([COMMON, c] + [n])[1] == c;
    }
  }

  /** The recorded deletions are the classes and the names that vanish. */
  lemma DeletedMeaning(cs: Classes, from: Json, to: Json, S: set<Path>, c: string, n: string)
    requires Parsed(from) && Parsed(to) && AllEdits(cs, from, to, S) && c in cs.truth
    ensures WholeDeleted(from, to, S, c) <==> c in CommonOf(from) && c !in CommonOf(to)
    ensures NameDeleted(from, to, S, c, n) <==>
      (&& c in CommonOf(from) && c in CommonOf(to) && CommonOf(from)[c].Obj? && CommonOf(to)[c].Obj?
       && n in CommonOf(from)[c].fields && n !in CommonOf(to)[c].fields)
  {
    ClassPath(cs, from, to, S, c, []);
    ClassPath(cs, from, to, S, c, [n]);
    ClassEdit(from, to, c, []);
    ClassEdit(from, to, c, [n]);
    assert [COMMON, c] + [] == [COMMON, c];
    assert [COMMON, c] + [n] == [COMMON, c, n];
    assert [n][1..] == [];
  }

  lemma UpdatedBody(cs: Classes, from: Json, to: Json, S: set<Path>, names: map<string, set<string>>, c: string)
    requires Parsed(from) && Parsed(to) && Shaped(cs, CommonOf(from)) && Shaped(cs, CommonOf(to))
    requires AllEdits(cs, from, to, S) && NamesRecorded(cs, to, S, names) && c in names && c in cs.truth
    ensures UpdateOf(cs.Named(c), Lookup(CommonOf(from), c), Lookup(CommonOf(to), c))
      == Some(UpdatedClass(cs, Lookup(CommonOf(to), c), names, c))
  {
    var f, t := Lookup(CommonOf(from), c), Lookup(CommonOf(to), c);
    ClassDiffers(cs, from, to, S, c);
    assert ClassShape(cs.Named(c), t);
    if cs.Named(c) && t.None? {
      forall n ensures n !in names[c] {
        NotTouched(cs, from, to, S, c, n);
      }
      assert UpdatedClass(cs, t, names, c).fields == map[];
    } else if cs.Named(c) && t.value.Obj? {
      var updated := (map n | n in KeysOf(f) + KeysOf(t) && Field(f, n) != Lookup(t.value.fields, n) ::
        if n in t.value.fields then t.value.fields[n] else EMPTY);
      assert UpdateOf(true, f, t) == Some(Obj(updated));
      forall n ensures Lookup(updated, n) == Lookup(UpdatedClass(cs, t, names, c).fields, n) {
        NameDiffers(cs, from, to, S, c, n);
      }
      SameFields(updated, UpdatedClass(cs, t, names, c).fields);
    }
  }

  /** Nothing lies below a class that vanishes. */
  lemma NotTouched(cs: Classes, from: Json, to: Json, S: set<Path>, c: string, n: string)
    requires Parsed(from) && Parsed(to) && AllEdits(cs, from, to, S) && c in cs.truth && c !in CommonOf(to)
    ensures !Touched(to, S, c, n)
  {
    forall p <- S | |p| > 2 ensures p[1] != c {
      if p[1] == c {
        EditsInCommon(from, to, p);
        SplitPath(p, 2);
        assert p[..2] == [COMMON, c];
        ClassPath(cs, from, to, S, c, p[2..]);
      }
    }
  }

  /** A class is recorded as deleted when it, or one of its names, vanishes. */
  lemma SomeDeletedMeaning(cs: Classes, from: Json, to: Json, S: set<Path>, c: string)
    requires Parsed(from) && Parsed(to) && AllEdits(cs, from, to, S) && c in cs.truth
    ensures SomeDeleted(from, to, S, c) <==> DeleteOf(Lookup(CommonOf(from), c), Lookup(CommonOf(to), c)).Some?
  {
    var f, t := Lookup(CommonOf(from), c), Lookup(CommonOf(to), c);
    DeletedMeaning(cs, from, to, S, c, "");
    if n :| NameDeleted(from, to, S, c, n) {
      DeletedMeaning(cs, from, to, S, c, n);
      assert n in f.value.fields.Keys - t.value.fields.Keys;
    }
    if f.Some? && t.Some? && f.value.Obj? && t.value.Obj? {
      var gone := f.value.fields.Keys - t.value.fields.Keys;
      if gone != {} {
        var n :| n in gone;
        DeletedMeaning(cs, from, to, S, c, n);
      }
    }
  }

  lemma DeletedBody(cs: Classes, from: Json, to: Json, S: set<Path>, deletes: map<string, Json>, c: string)
    requires Parsed(from) && Parsed(to) && AllEdits(cs, from, to, S) && DeletesRecorded(from, to, S, deletes)
    requires c in cs.truth
    ensures Lookup(deletes, c) == DeleteOf(Lookup(CommonOf(from), c), Lookup(CommonOf(to), c))
  {
    var f, t := Lookup(CommonOf(from), c), Lookup(CommonOf(to), c);
    SomeDeletedMeaning(cs, from, to, S, c);
    if c in deletes {
      var body := DeleteOf(f, t).value.fields;
      forall n ensures Lookup(deletes[c].fields, n) == Lookup(body, n) {
        DeletedMeaning(cs, from, to, S, c, n);
      }
      SameFields(deletes[c].fields, body);
    }
  }

  // ---------------------------------------------------------------- the handler

  /** What is copied into the update declaration for an updated class, `t` being the class after patching. */
  function UpdatedClass(cs: Classes, t: Option<Json>, names: map<string, set<string>>, c: string): Json
    requires c in names
  {
    if t.Some? && (t.value.Str? || t.value.Arr?) then t.value
    else if cs.Named(c) then Obj(map n | n in names[c] :: Assigned(Field(t, n)))
    else Assigned(t)
  }

  /** `Object.assign({}, source)` for an object or `undefined`. */
  function Assigned(source: Option<Json>): Json
  {
    if source.Some? && source.value.Obj? then source.value else EMPTY
  }

  /** What has been observed once the edits at `S` have been applied. */
  ghost predicate Observed(cs: Classes, from0: Json, to: Json, S: set<Path>, from: Json,
                           names: map<string, set<string>>, deletes: map<string, Json>)
    requires Parsed(to)
  {
    && EditPaths(from0, Some(to), S) && Patched(from0, Some(to), S) == Some(from)
    && NamesRecorded(cs, to, S, names) && DeletesRecorded(from0, to, S, deletes)
  }

  lemma ObserveNone(cs: Classes, from: Json, to: Json, edits: seq<Edit>)
    requires Parsed(to)
    ensures Observed(cs, from, to, {}, from, map[], map[]) && Seen(cs, edits, 0) == {}
  {
    PatchedNone(from, Some(to));
  }

  lemma ObserveStep(cs: Classes, from0: Json, to: Json, S: set<Path>, from: Json,
                    names: map<string, set<string>>, deletes: map<string, Json>, diff: Edit)
    requires Parsed(from0) && Parsed(to) && Shaped(cs, CommonOf(from0)) && Shaped(cs, CommonOf(to))
    requires Observed(cs, from0, to, S, from, names, deletes)
    requires Counts(cs, diff.path) && diff.path !in S && EditAt(from0, Some(to), diff.path) == Some(diff.change)
    ensures Observed(cs, from0, to, S + {diff.path}, Apply(from, diff.path, diff.change),
                     RecordNames(cs, names, diff), RecordDelete(deletes, diff))
  {
    ApplyOne(from0, Some(to), S, diff.path);
    NamesStep(cs, from0, to, S, names, diff);
    DeletesStep(from0, to, S, deletes, diff);
  }

  /** The counting paths among the first edits. */
  ghost function Seen(cs: Classes, edits: seq<Edit>, n: nat): set<Path>
    requires n <= |edits|
  {
    if n == 0 then {}
    else Seen(cs, edits, n - 1) + if Counts(cs, edits[n - 1].path) then {edits[n - 1].path} else {}
  }

  lemma {:induction false} SeenMember(cs: Classes, edits: seq<Edit>, n: nat, p: Path)
    requires n <= |edits|
    ensures p in Seen(cs, edits, n) <==> Counts(cs, p) && exists j :: 0 <= j < n && edits[j].path == p
  {
    if n > 0 { SeenMember(cs, edits, n - 1, p); }
  }

  lemma SeenStep(cs: Classes, from: Json, to: Json, edits: seq<Edit>, n: nat)
    requires n < |edits| && AllOf(from, to, edits)
    ensures edits[n].path !in Seen(cs, edits, n) && EditAt(from, Some(to), edits[n].path) == Some(edits[n].change)
    ensures Seen(cs, edits, n + 1) == Seen(cs, edits, n) + if Counts(cs, edits[n].path) then {edits[n].path} else {}
  {
    SeenMember(cs, edits, n, edits[n].path);
    assert Edit(edits[n].path, edits[n].change) in edits;
  }

  /** What deep-diff reports. */
  ghost predicate AllOf(from: Json, to: Json, edits: seq<Edit>)
  {
    Distinct(edits) && forall p, c :: Edit(p, c) in edits <==> EditAt(from, Some(to), p) == Some(c)
  }

  lemma SeenAll(cs: Classes, from: Json, to: Json, edits: seq<Edit>)
    requires AllOf(from, to, edits)
    ensures AllEdits(cs, from, to, Seen(cs, edits, |edits|))
  {
    forall p ensures p in Seen(cs, edits, |edits|) <==> Counts(cs, p) && EditAt(from, Some(to), p).Some? {
      SeenMember(cs, edits, |edits|, p);
      if EditAt(from, Some(to), p).Some? {
        assert Edit(p, EditAt(from, Some(to), p).value) in edits;
      }
      if j :| 0 <= j < |edits| && edits[j].path == p {
        assert Edit(p, edits[j].change) in edits;
      }
    }
  }

  class DiffHandler {
    const classes: Classes

    constructor (classesOfTruth: set<string>, namelessClasses: set<string>)
      ensures classes == Classes(classesOfTruth, namelessClasses)
    {
      classes := Classes(classesOfTruth, namelessClasses);
    }

    method PopulateNonTruthClasses(declaration: map<string, Json>) returns (uninteresting: map<string, Json>)
      ensures uninteresting == Uninteresting(classes, declaration)
    {
      uninteresting := map[];
      var keys := declaration.Keys;
      while keys != {}
        invariant keys <= declaration.Keys
        invariant uninteresting == map c | c in declaration && c !in keys && c !in classes.truth
          && Copied(declaration[c]).Some? :: Copied(declaration[c]).value
        decreases keys
      {
        var key :| key in keys;
        if key !in classes.truth {
          var copied := Copied(declaration[key]);
          if copied.Some? {
            uninteresting := uninteresting[key := copied.value];
          }
        }
        keys := keys - {key};
      }
    }

    /** The diff callback, for an edit of a class of truth. */
    method OnDiff(to: Json, before: Json, names: map<string, set<string>>, deletes0: map<string, Json>, diff: Edit,
                  ghost from0: Json, ghost S: set<Path>)
      returns (from: Json, updatedNames: map<string, set<string>>, deletes: map<string, Json>)
      requires Parsed(from0) && Parsed(to) && Shaped(classes, CommonOf(from0)) && Shaped(classes, CommonOf(to))
      requires Observed(classes, from0, to, S, before, names, deletes0)
      requires Counts(classes, diff.path) && diff.path !in S
      requires EditAt(from0, Some(to), diff.path) == Some(diff.change)
      ensures Observed(classes, from0, to, S + {diff.path}, from, updatedNames, deletes)
    {
      ObserveStep(classes, from0, to, S, before, names, deletes0, diff);
      from := Apply(before, diff.path, diff.change);
      updatedNames := RecordNames(classes, names, diff);
      deletes := RecordDelete(deletes0, diff);
    }

    /** Patches `from` edit by edit, keeping track of updated classes, names and deletions. */
    method Observe(to: Json, from0: Json)
      returns (from: Json, updatedNames: map<string, set<string>>, deletes: map<string, Json>, ghost S: set<Path>)
      requires Parsed(to) && Parsed(from0)
      requires Shaped(classes, CommonOf(to)) && Shaped(classes, CommonOf(from0))
      ensures AllEdits(classes, from0, to, S) && Observed(classes, from0, to, S, from, updatedNames, deletes)
    {
      hide Observed, Shaped, AllEdits, Seen, Counts;
      var edits := Differences(from0, Some(to));
      SeenAll(classes, from0, to, edits);
      from, updatedNames, deletes, S := from0, map[], map[], {};
      ObserveNone(classes, from0, to, edits);
      for i := 0 to |edits|
        invariant S == Seen(classes, edits, i)
        invariant Observed(classes, from0, to, S, from, updatedNames, deletes)
      {
        SeenStep(classes, from0, to, edits, i);
        if Counts(classes, edits[i].path) {
          from, updatedNames, deletes := OnDiff(to, from, updatedNames, deletes, edits[i], from0, S);
          S := S + {edits[i].path};
        }
      }
    }

    /** The update and the delete declaration, both as the contents of Common. */
    method Process(to: Json, from0: Json) returns (final: map<string, Json>, toDelete: map<string, Json>)
      requires Parsed(to) && Parsed(from0)
      requires Shaped(classes, CommonOf(to)) && Shaped(classes, CommonOf(from0))
      ensures final == ToUpdate(classes, CommonOf(to), CommonOf(from0))
      ensures toDelete == ToDelete(classes, CommonOf(to), CommonOf(from0))
      ensures OnlyWhatChanged(classes, CommonOf(to), CommonOf(from0), final, toDelete)
      ensures PassesThrough(classes, CommonOf(to), final, toDelete)
    {
      hide OnlyWhatChanged, PassesThrough, Observed, Shaped, AllEdits, Uninteresting, Updates, ToDelete, UpdatedClass;
      var uninteresting := PopulateNonTruthClasses(CommonOf(to));
      var from, updatedNames, deletes, S := Observe(to, from0);
      ProcessMeaning(classes, from0, to, S, from, updatedNames, deletes);
      ghost var updates := Updates(classes, CommonOf(to), CommonOf(from0));
      final, toDelete := uninteresting, deletes;
      var updatedClasses := updatedNames.Keys;
      while updatedClasses != {}
        invariant updatedClasses <= updates.Keys == updatedNames.Keys
        invariant forall c ::
          Lookup(final, c) ==
            (if c in updates && c !in updatedClasses then Some(updates[c]) else Lookup(uninteresting, c))
        decreases updatedClasses
      {
        var c :| c in updatedClasses;
        UpdatedPatched(classes, from0, to, S, from, updatedNames, deletes, c);
        final := final[c := UpdatedClass(classes, Lookup(from.fields[COMMON].fields, c), updatedNames, c)];
        updatedClasses := updatedClasses - {c};
      }
      SameFields(final, uninteresting + updates);
      Minimal(classes, CommonOf(to), CommonOf(from0));
    }
  }

  lemma TouchedIsTruth(cs: Classes, from: Json, to: Json, S: set<Path>, names: map<string, set<string>>, c: string)
    requires Parsed(from) && Parsed(to) && AllEdits(cs, from, to, S) && NamesRecorded(cs, to, S, names) && c in names
    ensures c in cs.truth
  {
  }

  /** An updated class is one of truth, and in the patched declaration it is already the target's. */
  lemma UpdatedPatched(cs: Classes, from0: Json, to: Json, S: set<Path>, from: Json,
                       names: map<string, set<string>>, deletes: map<string, Json>, c: string)
    requires Parsed(from0) && Parsed(to) && AllEdits(cs, from0, to, S)
    requires Observed(cs, from0, to, S, from, names, deletes) && c in names
    ensures from.Obj? && COMMON in from.fields && from.fields[COMMON].Obj?
    ensures Lookup(from.fields[COMMON].fields, c) == Lookup(CommonOf(to), c)
  {
    TouchedIsTruth(cs, from0, to, S, names, c);
    ClassPatched(cs, from0, to, S, c);
  }

  lemma ProcessMeaning(cs: Classes, from: Json, to: Json, S: set<Path>, patched: Json,
                       names: map<string, set<string>>, deletes: map<string, Json>)
    requires Parsed(from) && Parsed(to) && Shaped(cs, CommonOf(from)) && Shaped(cs, CommonOf(to))
    requires AllEdits(cs, from, to, S) && Observed(cs, from, to, S, patched, names, deletes)
    ensures deletes == ToDelete(cs, CommonOf(to), CommonOf(from))
    ensures names.Keys == Updates(cs, CommonOf(to), CommonOf(from)).Keys
    ensures forall c <- names ::
      UpdatedClass(cs, Lookup(CommonOf(to), c), names, c) == Updates(cs, CommonOf(to), CommonOf(from))[c]
  {
    forall c ensures Lookup(deletes, c) == Lookup(ToDelete(cs, CommonOf(to), CommonOf(from)), c) {
      if c in cs.truth {
        DeletedBody(cs, from, to, S, deletes, c);
      } else if c in deletes {
        assert SomeDeleted(from, to, S, c);
      }
    }
    SameFields(deletes, ToDelete(cs, CommonOf(to), CommonOf(from)));
    var updates := Updates(cs, CommonOf(to), CommonOf(from));
    forall c ensures c in names <==> c in updates {
      if c in cs.truth {
        ClassDiffers(cs, from, to, S, c);
      }
    }
    forall c <- names ensures UpdatedClass(cs, Lookup(CommonOf(to), c), names, c) == updates[c] {
      UpdatedBody(cs, from, to, S, names, c);
    }
  }
}
