/**
 * A JSON document as json.load() hands it to the Python code, and the three
 * Python operations the programs apply to such values: truthiness (`if v`,
 * `v or {}`), int(v) and str(v) / f"{v}".
 */
module JsonValue {
  import opened Wrappers
  import opened PyText
  import PyDict

  /**
   * A float is not computed with: it is carried as the text repr() gives for
   * it and the result of int() on it (None for inf and nan, which raise).
   * An object keeps its members in document order.
   */
  datatype Json =
    | JNull
    | JBool(b: bool)
    | JInt(i: int)
    | JFloat(repr: string, trunc: Option<int>)
    | JStr(s: string)
    | JArr(items: seq<Json>)
    | JObj(fields: seq<(string, Json)>)

  type Obj = seq<(string, Json)>

  /** Python's bool(v). */
  predicate Truthy(v: Json) {
    match v
    case JNull => false
    case JBool(b) => b
    case JInt(i) => i != 0
    case JFloat(r, _) => r != "0.0" && r != "-0.0"
    case JStr(s) => s != ""
    case JArr(a) => a != []
    case JObj(f) => f != []
  }

  predicate Has(o: Obj, k: string) {
    PyDict.HasKey(o, k)
  }

  /** o.get(k): the member's value, JNull (None) when absent. */
  function Get(o: Obj, k: string): (r: Json)
    ensures !Has(o, k) ==> r == JNull
  {
    PyDict.LastValue(o, k).GetOr(JNull)
  }

  /** o.get(k, fallback): the fallback only when the key is absent, not when its value is null. */
  function GetOr(o: Obj, k: string, fallback: Json): (r: Json)
    ensures Has(o, k) ==> r == Get(o, k)
    ensures !Has(o, k) ==> r == fallback
  {
    PyDict.LastValue(o, k).GetOr(fallback)
  }

  /** `v or {}`: the value itself when truthy, otherwise an empty object. */
  function OrEmpty(v: Json): (r: Json)
    ensures Truthy(v) ==> r == v
    ensures !Truthy(v) ==> r == JObj([])
  {
    if Truthy(v) then v else JObj([])
  }

  /** Python's int(v); None where int() raises (None, lists, dicts, malformed text, inf, nan). */
  function PyInt(v: Json): (r: Option<int>)
    ensures v.JInt? ==> r == Some(v.i)
    ensures v.JNull? || v.JArr? || v.JObj? ==> r == None
  {
    match v
    case JNull => None
    case JBool(b) => Some(if b then 1 else 0)
    case JInt(i) => Some(i)
    case JFloat(_, t) => t
    case JStr(s) => ParseInt(s)
    case JArr(_) => None
    case JObj(_) => None
  }

  /** Python's str(v). */
  function PyStr(v: Json): string {
    match v
    case JStr(s) => s
    case _ => PyRepr(v)
  }

  /**
   * Python's repr(v), used by str() for containers. Strings inside containers
   * are quoted with single quotes and not escaped.
   */
  function PyRepr(v: Json): string {
    match v
    case JNull => "None"
    case JBool(b) => if b then "True" else "False"
    case JInt(i) => Decimal(i)
    case JFloat(r, _) => r
    case JStr(s) => "'" + s + "'"
    case JArr(items) =>
      "[" + Join(seq(|items|, i requires 0 <= i < |items| => PyRepr(items[i])), ", ") + "]"
    case JObj(fields) =>
      "{" + Join(seq(|fields|, i requires 0 <= i < |fields| =>
                       var p := fields[i];
                       assert p in fields;
                       "'" + p.0 + "': " + PyRepr(p.1)), ", ") + "}"
  }

  /** int(str(i)) is i for every JSON integer, and str() of a string is the string. */
  lemma PyIntOfPyStr(v: Json)
    requires v.JInt? || v.JStr?
    ensures v.JInt? ==> PyInt(JStr(PyStr(v))) == Some(v.i)
    ensures v.JStr? ==> PyStr(v) == v.s
  {
    if v.JInt? {
      ParseDecimal(v.i);
    }
  }
}
