/** Shared vocabulary: an optional value stands for JavaScript's `undefined`, a map for the properties of an object. */
module Prelude {
  datatype Option<+T> = None | Some(value: T)

  function Lookup<V>(fields: map<string, V>, k: string): Option<V>
  {
    if k in fields then Some(fields[k]) else None
  }

  function RemoveKey<V>(fields: map<string, V>, k: string): map<string, V>
  {
    map x | x in fields && x != k :: fields[x]
  }

  lemma SameFields<V>(a: map<string, V>, b: map<string, V>)
    requires forall x :: Lookup(a, x) == Lookup(b, x)
    ensures a == b
  {
    forall x ensures x in a <==> x in b { assert Lookup(a, x) == Lookup(b, x); }
    forall x | x in a ensures a[x] == b[x] { assert Lookup(a, x) == Lookup(b, x); }
  }
}
