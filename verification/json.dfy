/** JSON values as Python's `json` module loads them. Objects are ordered
    sequences of key/value pairs, because Python dicts keep insertion order. */
module Json {

  datatype Json =
    | JNull
    | JBool(b: bool)
    | JInt(i: int)
    | JReal(r: real)
    | JStr(s: string)
    | JArr(items: seq<Json>)
    | JObj(fields: seq<(string, Json)>)

  /** Every object, at every depth, has pairwise distinct keys, as a Python
      dict does. */
  predicate WellFormed(j: Json) {
    match j
    case JArr(items) => forall i :: 0 <= i < |items| ==> WellFormed(items[i])
    case JObj(fields) =>
      && (forall a, b :: 0 <= a < b < |fields| ==> fields[a].0 != fields[b].0)
      && (forall i :: 0 <= i < |fields| ==> WellFormed(fields[i].1))
    case _ => true
  }

  /** One row of a flattened benchmark frame (`Benchmark.to_dataframe()`):
      its column names with their values, in column order. A missing value
      (pandas NaN) is `JNull`. */
  type FlatRow = seq<(string, Json)>
}
