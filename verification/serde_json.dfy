/**
 * The external document representation that the diff entry point receives
 * and that patch operations carry as payloads (serde_json's `Value`).
 * Only its shape matters here: numbers are opaque tokens compared by
 * equality, and an object is its entries in iteration order.
 */
module SerdeJson {

  /** A JSON number as the parser kept it; nothing but equality is used. */
  datatype Number = NumberToken(repr: string)

  datatype Json =
    | Null
    | Bool(b: bool)
    | Number(n: Number)
    | String(s: string)
    | Array(elems: seq<Json>)
    | Object(entries: seq<(string, Json)>)

  /** No key occurs twice among the entries of one object. */
  predicate DistinctKeys<V>(entries: seq<(string, V)>) {
    forall i, j :: 0 <= i < j < |entries| ==> entries[i].0 != entries[j].0
  }

  /** Every object in the document, at any depth, has distinct keys (a map's invariant). */
  predicate WellFormed(j: Json) {
    match j
    case Array(elems) => forall i :: 0 <= i < |elems| ==> WellFormed(elems[i])
    case Object(entries) =>
      DistinctKeys(entries) && forall i :: 0 <= i < |entries| ==> WellFormed(entries[i].1)
    case _ => true
  }
}
