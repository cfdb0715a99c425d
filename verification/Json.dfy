/** JSON documents, as the schema, status and projection models read them. */
module Json {
  datatype Option<+T> = None | Some(value: T)

  datatype Json =
    | JNull
    | JBool(b: bool)
    | JNum(r: real)
    | JStr(s: string)
    | JArr(elems: seq<Json>)
    | JObj(fields: map<string, Json>)

  /** Every number anywhere in the document is an integer. */
  predicate IntegerNumbered(j: Json) {
    match j
    case JNum(r) => r == r.Floor as real
    case JArr(elems) => forall i | 0 <= i < |elems| :: IntegerNumbered(elems[i])
    case JObj(fields) => forall k | k in fields :: IntegerNumbered(fields[k])
    case _ => true
  }
}
