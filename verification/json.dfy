/**
 * JSON values as the feed decoder produces them: a tagged union over null,
 * booleans, numbers, strings, lists and mappings. A mapping is an
 * insertion-ordered association list (see `OrderedDict`). Numbers are
 * opaque leaves: nothing in the transform inspects them.
 */
module JsonValue {
  import opened OrderedDict
  import opened KeyRewrite

  datatype Json =
    | JNull
    | JBool(b: bool)
    | JNum(n: int)
    | JStr(s: string)
    | JArr(items: seq<Json>)
    | JObj(fields: seq<(string, Json)>)

  /** Neither a list nor a mapping. */
  predicate IsScalar(j: Json)
  {
    !j.JArr? && !j.JObj?
  }

  /** Every mapping key, at every depth, is free of `.` and `$`. */
  predicate Clean(j: Json)
  {
    match j
    case JArr(items) => forall i :: 0 <= i < |items| ==> Clean(items[i])
    case JObj(fields) => forall i :: 0 <= i < |fields| ==> KeyOk(fields[i].0) && Clean(fields[i].1)
    case _ => true
  }

  /** Every mapping, at every depth, has distinct keys, as a Python dict does. */
  predicate WellFormed(j: Json)
  {
    match j
    case JArr(items) => forall i :: 0 <= i < |items| ==> WellFormed(items[i])
    case JObj(fields) => DistinctKeys(fields) && forall i :: 0 <= i < |fields| ==> WellFormed(fields[i].1)
    case _ => true
  }

  /** A value the document store accepts: clean keys and no duplicate keys anywhere. */
  predicate StoreReady(j: Json)
  {
    Clean(j) && WellFormed(j)
  }
}
