/**
 * Stand-in for the deep-diff package: the edits between two trees and their application. Arrays are leaves.
 */
module DeepDiff {
  import opened Prelude
  import opened Json

  /** Kinds N, E and D. */
  datatype Change = New(rhs: Json) | Edited(rhs: Json) | Deleted

  datatype Edit = Edit(path: Path, change: Change)

  /** The change recorded at a path, if there is one. Edits never lie below one another. */
  function EditAt(f: Json, t: Option<Json>, p: Path): Option<Change>
    decreases |p|
  {
    if p == [] then
      if t.None? then Some(Deleted)
      else if f == t.value || (f.Obj? && t.value.Obj?) then None
      else Some(Edited(t.value))
    else if f.Obj? && t.Some? && t.value.Obj? then
      if p[0] in f.fields then EditAt(f.fields[p[0]], Lookup(t.value.fields, p[0]), p[1..])
      else if p[0] in t.value.fields && |p| == 1 then Some(New(t.value.fields[p[0]]))
      else None
    else None
  }

  function Prefixed(k: string, edits: seq<Edit>): seq<Edit>
  {
    seq(|edits|, i requires 0 <= i < |edits| => edits[i].(path := [k] + edits[i].path))
  }

  ghost predicate Distinct(edits: seq<Edit>)
  {
    forall i, j | 0 <= i < j < |edits| :: edits[i].path != edits[j].path
  }

  /** All edits, each once, in the order in which the keys happen to be visited. */
  method Differences(lhs: Json, rhs: Option<Json>) returns (edits: seq<Edit>)
    ensures forall p, c :: Edit(p, c) in edits <==> EditAt(lhs, rhs, p) == Some(c)
    ensures Distinct(edits)
    decreases lhs
  {
    edits := [];
    if rhs.None? {
      return [Edit([], Deleted)];
    }
    if !lhs.Obj? || !rhs.value.Obj? {
      if lhs != rhs.value {
        edits := [Edit([], Edited(rhs.value))];
      }
      return;
    }
    var keys := lhs.fields.Keys + rhs.value.fields.Keys;
    ghost var done := {};
    while keys != {}
      invariant keys !! done && keys + done == lhs.fields.Keys + rhs.value.fields.Keys
      invariant forall p, c :: Edit(p, c) in edits <==>
        p != [] && p[0] in done && EditAt(lhs, rhs, p) == Some(c)
      invariant Distinct(edits)
      decreases keys
    {
      var k :| k in keys;
      var sub: seq<Edit>;
      if k in lhs.fields {
        sub := Differences(lhs.fields[k], Lookup(rhs.value.fields, k));
      } else {
        sub := [Edit([], New(rhs.value.fields[k]))];
      }
      var more := Prefixed(k, sub);
      forall p, c ensures Edit(p, c) in more <==> p != [] && p[0] == k && EditAt(lhs, rhs, p) == Some(c) {
        PrefixedMember(k, sub, p, c);
      }
      DistinctConcat(edits, more, done, k, sub);
      keys, done, edits := keys - {k}, done + {k}, edits + more;
    }
  }

  lemma PrefixedMember(k: string, sub: seq<Edit>, p: Path, c: Change)
    ensures Edit(p, c) in Prefixed(k, sub) <==> p != [] && p[0] == k && Edit(p[1..], c) in sub
  {
    if Edit(p, c) in Prefixed(k, sub) {
      var i :| 0 <= i < |sub| && Prefixed(k, sub)[i] == Edit(p, c);
      assert p[1..] == sub[i].path;
    }
    if p != [] && p[0] == k && Edit(p[1..], c) in sub {
      var i :| 0 <= i < |sub| && sub[i] == Edit(p[1..], c);
      assert Prefixed(k, sub)[i] == Edit(p, c) by { assert p == [k] + p[1..]; }
    }
  }

  lemma DistinctConcat(edits: seq<Edit>, more: seq<Edit>, done: set<string>, k: string, sub: seq<Edit>)
    requires Distinct(edits) && Distinct(sub) && more == Prefixed(k, sub) && k !in done
    requires forall e <- edits :: e.path != [] && e.path[0] in done
    ensures Distinct(edits + more)
  {
    forall i, j | 0 <= i < j < |sub| ensures more[i].path != more[j].path {
      assert more[i].path[1..] == sub[i].path && more[j].path[1..] == sub[j].path;
    }
    forall i, j | 0 <= i < |edits| && 0 <= j < |more| ensures edits[i].path != more[j].path {
      assert edits[i] in edits && more[j].path[0] == k;
    }
  }

  // ---------------------------------------------------------------- applying edits

  /** `applyChange` below an object: intermediate objects are created when missing. */
  function Apply(target: Json, p: Path, change: Change): Json
    requires p != []
    decreases |p|
  {
    if !target.Obj? then target
    else if |p| == 1 then
      if change.Deleted? then Obj(RemoveKey(target.fields, p[0])) else Obj(target.fields[p[0] := change.rhs])
    else
      var child := if p[0] in target.fields then target.fields[p[0]] else EMPTY;
      Obj(target.fields[p[0] := Apply(child, p[1..], change)])
  }

  /** The paths of `S` below `k`. */
  function Tails(S: set<Path>, k: string): set<Path>
  {
    set p <- S | p != [] && p[0] == k :: p[1..]
  }

  /** `f` after the edits towards `t` at the paths `S` have been applied. */
  function Patched(f: Json, t: Option<Json>, S: set<Path>): Option<Json>
    decreases f
  {
    if [] in S then t
    else if f.Obj? && t.Some? && t.value.Obj? then
      var tm := t.value.fields;
      Some(Obj(
        (map k | k in f.fields && Patched(f.fields[k], Lookup(tm, k), Tails(S, k)).Some? ::
          Patched(f.fields[k], Lookup(tm, k), Tails(S, k)).value)
        + (map k | k in tm && k !in f.fields && [k] in S :: tm[k])))
    else Some(f)
  }

  lemma TailsAdd(S: set<Path>, p: Path, k: string)
    requires p != []
    ensures Tails(S + {p}, k) == if p[0] == k then Tails(S, k) + {p[1..]} else Tails(S, k)
  {
  }

  lemma TailMember(S: set<Path>, k: string, p: Path)
    ensures p in Tails(S, k) <==> [k] + p in S
  {
    if [k] + p in S {
      assert ([k] + p)[1..] == p;
    }
    if p in Tails(S, k) {
      var q :| q in S && q != [] && q[0] == k && q[1..] == p;
      assert q == [k] + p;
    }
  }

  ghost predicate EditPaths(f: Json, t: Option<Json>, S: set<Path>)
  {
    forall p <- S :: EditAt(f, t, p).Some?
  }

  lemma EditPathsBelow(f: Json, t: Option<Json>, S: set<Path>, k: string)
    requires EditPaths(f, t, S) && f.Obj? && t.Some? && t.value.Obj? && k in f.fields
    ensures EditPaths(f.fields[k], Lookup(t.value.fields, k), Tails(S, k))
  {
    forall p <- Tails(S, k) ensures EditAt(f.fields[k], Lookup(t.value.fields, k), p).Some? {
      TailMember(S, k, p);
      assert ([k] + p)[1..] == p;
    }
  }

  /** One property of a partly patched object. */
  lemma PatchedField(f: Json, t: Option<Json>, S: set<Path>, k: string)
    requires f.Obj? && t.Some? && t.value.Obj? && [] !in S
    ensures Patched(f, t, S).Some? && Patched(f, t, S).value.Obj?
    ensures Lookup(Patched(f, t, S).value.fields, k) ==
      if k in f.fields then Patched(f.fields[k], Lookup(t.value.fields, k), Tails(S, k))
      else if [k] in S then Lookup(t.value.fields, k) else None
  {
  }

  /** Applying one more edit extends the set of applied paths by one, in whatever order the edits come. */
  lemma {:induction false} ApplyOne(f: Json, t: Option<Json>, S: set<Path>, p: Path)
    requires p != [] && EditPaths(f, t, S) && EditAt(f, t, p).Some?
    ensures Patched(f, t, S).Some?
    ensures Patched(f, t, S + {p}) == Some(Apply(Patched(f, t, S).value, p, EditAt(f, t, p).value))
    decreases |p|, 1
  {
    var k := p[0];
    assert [] !in S;
    PatchedField(f, t, S, k);
    var before := Patched(f, t, S).value;
    var after := Patched(f, t, S + {p}).value;
    var applied := Apply(before, p, EditAt(f, t, p).value);
    forall x ensures Lookup(after.fields, x) == Lookup(applied.fields, x) {
      PatchedField(f, t, S, x);
      PatchedField(f, t, S + {p}, x);
      TailsAdd(S, p, x);
      if x == k {
        ApplyField(f, t, S, p);
      }
    }
    SameFields(after.fields, applied.fields);
  }

  /** ApplyOne at the property the edit goes through. */
  lemma {:induction false} ApplyField(f: Json, t: Option<Json>, S: set<Path>, p: Path)
    requires p != [] && EditPaths(f, t, S) && EditAt(f, t, p).Some?
    ensures Patched(f, t, S).Some? && Patched(f, t, S).value.Obj?
    ensures Patched(f, t, S + {p}).Some? && Patched(f, t, S + {p}).value.Obj?
    ensures Lookup(Patched(f, t, S + {p}).value.fields, p[0])
      == Lookup(Apply(Patched(f, t, S).value, p, EditAt(f, t, p).value).fields, p[0])
    decreases |p|, 0
  {
    var k := p[0];
    assert [] !in S;
    PatchedField(f, t, S, k);
    PatchedField(f, t, S + {p}, k);
    TailsAdd(S, p, k);
    if k in f.fields {
      EditPathsBelow(f, t, S, k);
      if |p| > 1 {
        ApplyOne(f.fields[k], Lookup(t.value.fields, k), Tails(S, k), p[1..]);
      } else {
        assert p[1..] == [];
      }
    } else {
      assert p == [k];
    }
  }

  /** No edits applied: nothing changed. */
  lemma {:induction false} PatchedNone(f: Json, t: Option<Json>)
    ensures Patched(f, t, {}) == Some(f)
    decreases f
  {
    if f.Obj? && t.Some? && t.value.Obj? {
      forall k | k in f.fields
        ensures Patched(f.fields[k], Lookup(t.value.fields, k), Tails({}, k)) == Some(f.fields[k])
      {
        assert Tails({}, k) == {};
        PatchedNone(f.fields[k], Lookup(t.value.fields, k));
      }
      assert Patched(f, t, {}).value.fields == f.fields;
    }
  }

  /** All edits applied: the target is reached. */
  lemma {:induction false} PatchedAll(f: Json, t: Option<Json>, S: set<Path>)
    requires forall p :: EditAt(f, t, p).Some? ==> p in S
    ensures Patched(f, t, S) == t
    decreases f
  {
    if [] !in S {
      assert EditAt(f, t, []).None?;
      if f.Obj? && t.value.Obj? {
        var tm := t.value.fields;
        forall k | k in f.fields ensures Patched(f.fields[k], Lookup(tm, k), Tails(S, k)) == Lookup(tm, k) {
          forall p | EditAt(f.fields[k], Lookup(tm, k), p).Some? ensures p in Tails(S, k) {
            assert ([k] + p)[1..] == p;
            assert EditAt(f, t, [k] + p).Some?;
            TailMember(S, k, p);
          }
          PatchedAll(f.fields[k], Lookup(tm, k), Tails(S, k));
        }
        forall k | k in tm && k !in f.fields ensures [k] in S {
          assert EditAt(f, t, [k]).Some?;
        }
        assert Patched(f, t, S).value.fields == tm;
      }
    }
  }

  lemma {:induction false} NoEdits(f: Json, p: Path)
    ensures EditAt(f, Some(f), p).None?
    decreases |p|
  {
    if p != [] && f.Obj? && p[0] in f.fields {
      NoEdits(f.fields[p[0]], p[1..]);
    }
  }

  ghost predicate HasEdit(f: Json, t: Option<Json>)
  {
    exists p :: EditAt(f, t, p).Some?
  }

  /** There is an edit exactly when the values differ. */
  lemma DiffersIff(f: Json, t: Option<Json>)
    ensures HasEdit(f, t) <==> Some(f) != t
  {
    if Some(f) == t {
      forall p ensures EditAt(f, t, p).None? { NoEdits(f, p); }
    } else if !HasEdit(f, t) {
      PatchedAll(f, t, {});
      PatchedNone(f, t);
    }
  }
}
