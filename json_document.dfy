/** JSON values and the mutable document that both pipeline stages update in place. */
module JsonDocument {

  datatype Option<T> = None | Some(value: T)

  /** Pass, or Fail with the reason the stage raised. */
  datatype Outcome<E> = Pass | Fail(error: E)

  /** A JSON value as produced by the JSON decoder. */
  datatype Json =
    | Null
    | Bool(b: bool)
    | Num(n: real)
    | Str(s: string)
    | Arr(items: seq<Json>)
    | Obj(fields: map<string, Json>)

  /** The strings held by a JSON array, as a set; empty for any other value. */
  function Listed(v: Json): set<string>
  {
    if v.Arr? then set i | 0 <= i < |v.items| && v.items[i].Str? :: v.items[i].s else {}
  }

  ghost predicate Distinct(items: seq<Json>)
  {
    forall i, j :: 0 <= i < j < |items| ==> items[i] != items[j]
  }

  /** `v` is a JSON array of pairwise distinct strings whose elements are exactly `s`:
      what converting a set of strings to a list and storing it produces. */
  ghost predicate ListsSet(v: Json, s: set<string>)
  {
    && v.Arr?
    && (forall i :: 0 <= i < |v.items| ==> v.items[i].Str?)
    && Distinct(v.items)
    && Listed(v) == s
  }

  /** Key `k` is present in both maps with the same value, or absent from both. */
  ghost predicate SameAt(m: map<string, Json>, m': map<string, Json>, k: string)
  {
    (k in m <==> k in m') && (k in m ==> m[k] == m'[k])
  }

  /** The decoded JSON object of one input file; the stages assign its keys in place. */
  class Document {
    var fields: map<string, Json>

    constructor (fields: map<string, Json>)
      ensures this.fields == fields
    {
      this.fields := fields;
    }
  }
}
