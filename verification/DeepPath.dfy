/**
 * doUtil.js: reading, writing and deleting at a dotted path. An array is an object with numerals for keys, as these
 * helpers see it. A write or deletion that would throw yields None.
 */
module DeepPath {
  import opened Prelude
  import opened Text

  datatype Value =
    | Null
    | Bool(truth: bool)
    | Num(number: int)
    | Str(text: string)
    | Object(isArray: bool, properties: map<string, Value>)

  type Path = seq<string>

  predicate Truthy(v: Option<Value>)
  {
    v.Some? && !v.value.Null? && v.value != Bool(false) && v.value != Num(0) && v.value != Str("")
  }

  function Property(v: Option<Value>, k: string): Option<Value>
  {
    if v.Some? && v.value.Object? && k in v.value.properties then Some(v.value.properties[k]) else None
  }

  // ---------------------------------------------------------------- the three operations, on split paths

  function Get(v: Option<Value>, p: Path): Option<Value>
    requires p != []
    decreases |p|
  {
    if !Truthy(v) then None
    else
      var next := if p[0] == "" then v else Property(v, p[0]);
      if |p| == 1 then next else Get(next, p[1..])
  }

  /** Who writes: setDeepValue creates arrays before numerals, mapNewId replaces falsy containers. */
  datatype Writer = SetDeep | MapNewId

  predicate Numeral(s: string) { s != "" && forall c <- s :: IsDigit(c) }

  predicate Missing(child: Option<Value>, w: Writer)
  {
    if w.SetDeep? then child.None? else !Truthy(child)
  }

  function Put(o: Value, p: Path, v: Value, w: Writer): Option<Value>
    requires p != []
    decreases |p|
  {
    if !o.Object? then None
    else if |p| == 1 then Some(o.(properties := o.properties[p[0] := v]))
    else
      var child := if Missing(Property(Some(o), p[0]), w) then Object(w.SetDeep? && Numeral(p[1]), map[])
                   else o.properties[p[0]];
      var r := Put(child, p[1..], v, w);
      if r.None? then None else Some(o.(properties := o.properties[p[0] := r.value]))
  }

  function Remove(o: Value, p: Path): Option<Value>
    requires p != []
    decreases |p|
  {
    if o.Null? then None
    else if !o.Object? then Some(o)
    else if |p| == 1 then Some(o.(properties := RemoveKey(o.properties, p[0])))
    else if p[0] !in o.properties then Some(o)
    else
      var r := Remove(o.properties[p[0]], p[1..]);
      if r.None? then None else Some(o.(properties := o.properties[p[0] := r.value]))
  }

  // ---------------------------------------------------------------- the operations themselves

  /** Splits the path, takes one step, and recurs on the rest joined again. */
  function GetDeepValue(obj: Option<Value>, propertyPath: string): Option<Value>
    decreases |Split(propertyPath, ".")|
  {
    var pathComponents := Split(propertyPath, ".");
    if !Truthy(obj) then None
    else
      var nextSource := if pathComponents[0] == "" then obj else Property(obj, pathComponents[0]);
      if |pathComponents| == 1 then nextSource
      else
        SplitParts(propertyPath, '.');
        SplitJoin(pathComponents[1..], ".");
        GetDeepValue(nextSource, Join(pathComponents[1..], "."))
  }

  function SetDeepValue(obj: Value, propertyPath: string, val: Value): Option<Value>
  {
    var pathComponents := Split(propertyPath, ".");
    if pathComponents[0] == "" || pathComponents[|pathComponents| - 1] == "" then None
    else Put(obj, pathComponents, val, SetDeep)
  }

  function DeleteKey(obj: Value, path: string): Option<Value>
  {
    if !Truthy(Some(obj)) || path == "" then Some(obj) else Remove(obj, Split(path, "."))
  }

  /** Re-splitting the joined rest at every step reads the path component by component. */
  lemma {:induction false} GetDeepValueIsGet(obj: Option<Value>, propertyPath: string)
    ensures GetDeepValue(obj, propertyPath) == Get(obj, Split(propertyPath, "."))
    decreases |Split(propertyPath, ".")|
  {
    var parts := Split(propertyPath, ".");
    if Truthy(obj) && |parts| > 1 {
      SplitParts(propertyPath, '.');
      SplitJoin(parts[1..], ".");
      GetDeepValueIsGet(if parts[0] == "" then obj else Property(obj, parts[0]), Join(parts[1..], "."));
    }
  }

  // ---------------------------------------------------------------- laws

  predicate Prefix(p: Path, q: Path) { |p| <= |q| && q[..|p|] == p }

  predicate Unrelated(p: Path, q: Path) { !Prefix(p, q) && !Prefix(q, p) }

  lemma PrefixTail(p: Path, q: Path)
    requires p != [] && q != [] && p[0] == q[0]
    ensures Prefix(p[1..], q[1..]) ==> Prefix(p, q)
  {
    if Prefix(p[1..], q[1..]) {
      assert q[..|p|] == [q[0]] + q[1..][..|p| - 1] == p;
    }
  }

  lemma UnrelatedTail(p: Path, q: Path)
    requires Unrelated(p, q) && p != [] && q != [] && p[0] == q[0]
    ensures p[1..] != [] && q[1..] != [] && Unrelated(p[1..], q[1..])
  {
    PrefixTail(p, q);
    PrefixTail(q, p);
  }

  /** Cutting the longer path does not make the shorter one a prefix of it. */
  lemma PrefixOfTake(p: Path, q: Path, m: nat)
    requires m <= |q|
    ensures Prefix(p, q[..m]) ==> Prefix(p, q)
    ensures Prefix(q[..m], p) && |p| <= m ==> Prefix(p, q)
  {
    if Prefix(p, q[..m]) {
      assert q[..|p|] == q[..m][..|p|];
    }
  }

  /** What was written is read back. */
  lemma {:induction false} GetPut(o: Value, p: Path, v: Value, w: Writer)
    requires p != [] && "" !in p && Put(o, p, v, w).Some?
    ensures Get(Put(o, p, v, w), p) == Some(v)
    decreases |p|
  {
    if |p| > 1 {
      var child := if Missing(Property(Some(o), p[0]), w) then Object(w.SetDeep? && Numeral(p[1]), map[])
                   else o.properties[p[0]];
      GetPut(child, p[1..], v, w);
    }
  }

  /** Writing leaves every unrelated path alone. */
  lemma {:induction false} PutFrame(o: Value, p: Path, v: Value, w: Writer, q: Path)
    requires p != [] && q != [] && Unrelated(p, q) && "" !in q && Put(o, p, v, w).Some?
    ensures Get(Put(o, p, v, w), q) == Get(Some(o), q)
    decreases |p|
  {
    if p[0] == q[0] {
      UnrelatedTail(p, q);
      var child := if Missing(Property(Some(o), p[0]), w) then Object(w.SetDeep? && Numeral(p[1]), map[])
                   else o.properties[p[0]];
      PutFrame(child, p[1..], v, w, q[1..]);
    }
  }

  /** After a deletion there is nothing at the path, and deleting nothing changes nothing. */
  lemma {:induction false} RemoveGone(o: Value, p: Path)
    requires p != [] && "" !in p && Remove(o, p).Some?
    ensures Get(Remove(o, p), p).None?
    ensures Remove(o, p) == Some(o) <==> Get(Some(o), p).None?
    decreases |p|
  {
    if o.Object? {
      if |p| == 1 {
        if p[0] !in o.properties {
          assert RemoveKey(o.properties, p[0]) == o.properties;
        }
      } else if p[0] in o.properties {
        RemoveGone(o.properties[p[0]], p[1..]);
        assert o.properties[p[0] := o.properties[p[0]]] == o.properties;
      }
    }
  }

  /** Deleting leaves every unrelated path alone. */
  lemma {:induction false} RemoveFrame(o: Value, p: Path, q: Path)
    requires p != [] && q != [] && Unrelated(p, q) && "" !in q && Remove(o, p).Some?
    ensures Get(Remove(o, p), q) == Get(Some(o), q)
    decreases |p|
  {
    if o.Object? && p[0] == q[0] {
      UnrelatedTail(p, q);
      if p[0] in o.properties {
        RemoveFrame(o.properties[p[0]], p[1..], q[1..]);
      }
    }
  }

  /** Reading does not see the property named by the empty string. */
  lemma {:induction false} EmptyKeyUnseen(o: Value, v: Value, p: Path)
    requires o.Object? && p != [] && p[|p| - 1] != ""
    ensures Get(Some(o.(properties := o.properties["" := v])), p) == Get(Some(o), p)
    decreases |p|
  {
    if p[0] == "" {
      EmptyKeyUnseen(o, v, p[1..]);
    }
  }

  /** With an empty component in the path, what is read does not depend on what was written. */
  lemma {:induction false} EmptyComponentUnseen(o: Value, p: Path, v1: Value, v2: Value)
    requires p != [] && "" in p && p[|p| - 1] != "" && Put(o, p, v1, SetDeep).Some? && Put(o, p, v2, SetDeep).Some?
    ensures Get(Put(o, p, v1, SetDeep), p) == Get(Put(o, p, v2, SetDeep), p)
    decreases |p|
  {
    if p[0] == "" {
      EmptyKeyUnseen(o, Put(o, p, v1, SetDeep).value.properties[""], p[1..]);
      EmptyKeyUnseen(o, Put(o, p, v2, SetDeep).value.properties[""], p[1..]);
    } else {
      var child := if Missing(Property(Some(o), p[0]), SetDeep) then Object(Numeral(p[1]), map[])
                   else o.properties[p[0]];
      EmptyComponentUnseen(child, p[1..], v1, v2);
    }
  }

  lemma {:induction false} PutPossible(o: Value, p: Path, v1: Value, v2: Value)
    requires p != []
    ensures Put(o, p, v1, SetDeep).Some? <==> Put(o, p, v2, SetDeep).Some?
    decreases |p|
  {
    if o.Object? && |p| > 1 {
      var child := if Missing(Property(Some(o), p[0]), SetDeep) then Object(Numeral(p[1]), map[])
                   else o.properties[p[0]];
      PutPossible(child, p[1..], v1, v2);
    }
  }

  ghost predicate ReadsBack(obj: Value, path: string)
  {
    forall v :: SetDeepValue(obj, path, v).Some? && GetDeepValue(SetDeepValue(obj, path, v), path) == Some(v)
  }

  /** Where a path can be written at all, every value reads back exactly when the path has no empty component. */
  lemma GetAfterSetIff(obj: Value, path: string)
    requires SetDeepValue(obj, path, Null).Some?
    ensures ReadsBack(obj, path) <==> "" !in Split(path, ".")
  {
    var parts := Split(path, ".");
    forall v ensures SetDeepValue(obj, path, v).Some? { PutPossible(obj, parts, Null, v); }
    if "" !in parts {
      forall v ensures GetDeepValue(SetDeepValue(obj, path, v), path) == Some(v) {
        assert SetDeepValue(obj, path, v).Some?;
        GetPut(obj, parts, v, SetDeep);
        GetDeepValueIsGet(SetDeepValue(obj, path, v), path);
      }
    } else {
      assert SetDeepValue(obj, path, Bool(true)).Some?;
      EmptyComponentUnseen(obj, parts, Null, Bool(true));
      GetDeepValueIsGet(SetDeepValue(obj, path, Null), path);
      GetDeepValueIsGet(SetDeepValue(obj, path, Bool(true)), path);
    }
  }

  predicate Separate(path: string, other: string)
  {
    Unrelated(Split(path, "."), Split(other, ".")) && "" !in Split(other, ".")
  }

  /** Writing and deleting at a path are not seen at a path that is neither above nor below it. */
  lemma OthersUnchanged(obj: Value, path: string, val: Value, other: string)
    requires Separate(path, other)
    ensures SetDeepValue(obj, path, val).Some? ==>
      GetDeepValue(SetDeepValue(obj, path, val), other) == GetDeepValue(Some(obj), other)
    ensures DeleteKey(obj, path).Some? ==> GetDeepValue(DeleteKey(obj, path), other) == GetDeepValue(Some(obj), other)
  {
    var p, q := Split(path, "."), Split(other, ".");
    GetDeepValueIsGet(Some(obj), other);
    GetDeepValueIsGet(SetDeepValue(obj, path, val), other);
    GetDeepValueIsGet(DeleteKey(obj, path), other);
    if SetDeepValue(obj, path, val).Some? {
      PutFrame(obj, p, val, SetDeep, q);
    }
    if Remove(obj, p).Some? {
      RemoveFrame(obj, p, q);
    }
  }

  /** A deleted key is gone; and nothing changes exactly when there was nothing to delete. */
  lemma DeletedIsGone(obj: Value, path: string)
    requires "" !in Split(path, ".") && DeleteKey(obj, path).Some?
    ensures GetDeepValue(DeleteKey(obj, path), path).None?
    ensures DeleteKey(obj, path) == Some(obj) <==> GetDeepValue(Some(obj), path).None?
  {
    GetDeepValueIsGet(Some(obj), path);
    GetDeepValueIsGet(DeleteKey(obj, path), path);
    if Truthy(Some(obj)) && path != "" {
      RemoveGone(obj, Split(path, "."));
    }
  }

  /** Deleting what was just written restores the object exactly when the place was free and its container existed. */
  lemma {:induction false} RemoveUndoesPut(o: Value, p: Path, v: Value)
    requires p != [] && "" !in p && Put(o, p, v, SetDeep).Some?
    ensures Remove(Put(o, p, v, SetDeep).value, p).Some?
    ensures Remove(Put(o, p, v, SetDeep).value, p) == Some(o)
      <==> (Get(Some(o), p).None? && (|p| == 1 || Get(Some(o), p[..|p| - 1]).Some?))
    decreases |p|
  {
    var put := Put(o, p, v, SetDeep).value;
    if |p| == 1 {
      assert RemoveKey(put.properties, p[0]) == RemoveKey(o.properties, p[0]);
      if p[0] !in o.properties {
        assert RemoveKey(o.properties, p[0]) == o.properties;
      }
    } else {
      var missing := Missing(Property(Some(o), p[0]), SetDeep);
      var child := if missing then Object(Numeral(p[1]), map[]) else o.properties[p[0]];
      RemoveUndoesPut(child, p[1..], v);
      assert p[..|p| - 1][0] == p[0];
      if missing {
        assert p[0] in Remove(put, p).value.properties;
      } else {
        assert p[..|p| - 1][1..] == p[1..][..|p[1..]| - 1];
        assert put.properties[p[0] := o.properties[p[0]]] == o.properties;
      }
    }
  }

  // ---------------------------------------------------------------- when and how a write goes through

  /** Every container on the way is an object, or not there yet. */
  predicate OpenPath(o: Value, p: Path)
  {
    forall m | 0 < m < |p| :: Get(Some(o), p[..m]).None? || Get(Some(o), p[..m]).value.Object?
  }

  lemma {:induction false} PutSucceeds(o: Value, p: Path, v: Value)
    requires p != [] && "" !in p && o.Object? && OpenPath(o, p)
    ensures Put(o, p, v, MapNewId).Some?
    decreases |p|
  {
    if |p| > 1 {
      assert p[..1] == [p[0]];
      assert Get(Some(o), p[..1]) == Property(Some(o), p[0]);
      var missing := Missing(Property(Some(o), p[0]), MapNewId);
      var child := if missing then Object(false, map[]) else o.properties[p[0]];
      forall m | 0 < m < |p[1..]|
        ensures Get(Some(child), p[1..][..m]).None? || Get(Some(child), p[1..][..m]).value.Object?
      {
        assert p[..m + 1][1..] == p[1..][..m];
        if !missing {
          assert Get(Some(o), p[..m + 1]) == Get(Some(child), p[1..][..m]);
        }
      }
      PutSucceeds(child, p[1..], v);
    }
  }

  /** What a write leaves behind at the containers it passes through, and at the top level. */
  lemma {:induction false} PutContainer(o: Value, p: Path, v: Value, w: Writer, m: nat)
    requires p != [] && "" !in p && 0 < m < |p| && Put(o, p, v, w).Some?
    ensures Get(Put(o, p, v, w), p[..m]).Some? && Get(Put(o, p, v, w), p[..m]).value.Object?
    decreases |p|
  {
    assert p[..m][0] == p[0];
    if m > 1 {
      var child := if Missing(Property(Some(o), p[0]), w) then Object(w.SetDeep? && Numeral(p[1]), map[])
                   else o.properties[p[0]];
      PutContainer(child, p[1..], v, w, m - 1);
      assert p[..m][1..] == p[1..][..m - 1];
    }
  }

  lemma PutElsewhere(o: Value, p: Path, v: Value, w: Writer, k: string)
    requires p != [] && Put(o, p, v, w).Some? && k != p[0]
    ensures Put(o, p, v, w).value.Object? && o.Object? && Put(o, p, v, w).value.isArray == o.isArray
    ensures Property(Put(o, p, v, w), k) == Property(Some(o), k)
  {
  }

  /** A write keeps every other unrelated path open. */
  lemma OpenPut(o: Value, p: Path, v: Value, w: Writer, q: Path)
    requires p != [] && "" !in p && q != [] && "" !in q && Put(o, p, v, w).Some?
    requires OpenPath(o, q) && (p == q || Unrelated(p, q))
    ensures OpenPath(Put(o, p, v, w).value, q)
  {
    forall m | 0 < m < |q|
      ensures Get(Put(o, p, v, w), q[..m]).None? || Get(Put(o, p, v, w), q[..m]).value.Object?
    {
      PrefixOfTake(p, q, m);
      if Prefix(q[..m], p) {
        PutContainer(o, p, v, w, m);
      } else {
        PutFrame(o, p, v, w, q[..m]);
      }
    }
  }

  // ---------------------------------------------------------------- the falsy, the empty and the numeral

  /** Nothing can be read from a value exactly when it is null, false, zero or the empty string. */
  lemma UnreadIff(v: Value)
    ensures GetDeepValue(Some(v), "").None? <==> v in [Null, Bool(false), Num(0), Str("")]
  {
    SplitAtom("", ".");
  }

  /** Nor is anything deleted from such a value, or at an empty path. */
  lemma NothingToDelete(obj: Value, path: string)
    requires path == "" || obj in [Null, Bool(false), Num(0), Str("")]
    ensures DeleteKey(obj, path) == Some(obj)
  {
  }

  /** A path can be written on an empty object exactly when it is not empty and neither starts nor ends with a dot. */
  lemma WritableIff(path: string, val: Value)
    ensures SetDeepValue(Object(false, map[]), path, val).Some?
      <==> path != "" && path[0] != '.' && path[|path| - 1] != '.'
  {
    var parts := Split(path, ".");
    EdgesOfSplit(path);
    PutOnNothing(false, parts, val);
  }

  lemma {:induction false} PutOnNothing(isArray: bool, p: Path, val: Value)
    requires p != []
    ensures Put(Object(isArray, map[]), p, val, SetDeep).Some?
    decreases |p|
  {
    if |p| > 1 {
      PutOnNothing(Numeral(p[1]), p[1..], val);
    }
  }

  lemma {:induction false} EdgesOfSplit(path: string)
    ensures Split(path, ".")[0] == "" <==> path == "" || path[0] == '.'
    ensures var parts := Split(path, ".");
      parts[|parts| - 1] == "" <==> path == "" || path[|path| - 1] == '.'
    decreases |path|
  {
    if path != "" {
      EdgesOfSplit(path[1..]);
      assert path[..1] == "." <==> path[0] == '.';
      assert path[1..] != "" ==> path[1..][|path| - 2] == path[|path| - 1];
      if path[1..] != "" && path[1] == '.' {
        assert path[1..][..1] == ".";
        assert |Split(path[1..], ".")| > 1;
      }
    }
  }

  /** A missing container becomes an array exactly when the next component is a whole number. */
  lemma ArrayIff(a: string, b: string, val: Value)
    requires a != "" && b != "" && '.' !in a && '.' !in b
    ensures SetDeepValue(Object(false, map[]), a + "." + b, val) ==
      Some(Object(false, map[a := Object(forall c <- b :: '0' <= c <= '9', map[b := val])]))
  {
    SplitPrefix(a, b, ".");
    SplitAtom(b, ".");
    assert Split(a + "." + b, ".") == [a, b];
    NumeralIff(b);
    PutTwo(a, b, val);
  }

  lemma NumeralIff(s: string)
    requires s != ""
    ensures Numeral(s) == forall c <- s :: '0' <= c <= '9'
  {
  }

  lemma PutTwo(a: string, b: string, val: Value)
    ensures Put(Object(false, map[]), [a, b], val, SetDeep)
      == Some(Object(false, map[a := Object(Numeral(b), map[b := val])]))
  {
    hide Numeral;
    assert [a, b][1..] == [b];
    assert Put(Object(Numeral(b), map[]), [b], val, SetDeep) == Some(Object(Numeral(b), map[b := val]));
  }
}
