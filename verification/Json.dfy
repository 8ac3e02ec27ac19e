/** JSON values, and reading, writing and deleting at a path of property names. */
module Json {
  import opened Prelude

  datatype Json =
    | Null
    | Bool(truth: bool)
    | Num(number: int)
    | Str(text: string)
    | Arr(items: seq<Json>)
    | Obj(fields: map<string, Json>)

  type Path = seq<string>

  const EMPTY := Obj(map[])

  /** A property of a value that may be missing or not an object. */
  function Field(j: Option<Json>, k: string): Option<Json>
  {
    if j.Some? && j.value.Obj? then Lookup(j.value.fields, k) else None
  }

  function KeysOf(j: Option<Json>): set<string>
  {
    if j.Some? && j.value.Obj? then j.value.fields.Keys else {}
  }

  /** An absent value counts as empty, and so do an object and an array without anything in them. */
  predicate IsEmpty(j: Option<Json>)
  {
    j.None? || j.value == EMPTY || j.value == Arr([])
  }
}
