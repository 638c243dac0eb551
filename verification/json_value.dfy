/**
 * The value a JSON or YAML loader produces, as the modelled tools see it.
 * Objects are association lists in insertion order, because Python dicts iterate in
 * insertion order; a loaded dict never repeats a key, and `Get` returns the first match.
 * Numbers are integers only: floats, dates and non-string keys are not modelled.
 */
module JsonValue {
  import opened Wrappers

  datatype Json =
    | JNull
    | JBool(b: bool)
    | JNum(n: int)
    | JStr(s: string)
    | JArr(items: seq<Json>)
    | JObj(fields: seq<(string, Json)>)

  /** dict.get(key): the value stored under the first field named `key`. */
  function Get(fields: seq<(string, Json)>, key: string): (r: Option<Json>)
    ensures r.None? <==> forall i :: 0 <= i < |fields| ==> fields[i].0 != key
    ensures r.Some? ==> exists i :: 0 <= i < |fields| && fields[i] == (key, r.value)
  {
    if |fields| == 0 then None
    else if fields[0].0 == key then Some(fields[0].1)
    else Get(fields[1..], key)
  }

  /** dict.get(key, default). */
  function GetOr(fields: seq<(string, Json)>, key: string, default: Json): Json
  {
    match Get(fields, key)
    case Some(v) => v
    case None => default
  }

  /** `key in obj` for an object; false for every other value. */
  predicate HasKey(j: Json, key: string)
  {
    j.JObj? && Get(j.fields, key).Some?
  }

  /** `obj.get(key)` on a value already known to be an object: None becomes JSON null. */
  function Field(j: Json, key: string): Json
  {
    if j.JObj? then GetOr(j.fields, key, JNull) else JNull
  }

  function Keys(fields: seq<(string, Json)>): (r: seq<string>)
    ensures |r| == |fields| && forall i :: 0 <= i < |fields| ==> r[i] == fields[i].0
  {
    seq(|fields|, i requires 0 <= i < |fields| => fields[i].0)
  }

  /** What every Python dict satisfies: no key occurs twice. */
  predicate DistinctKeys(fields: seq<(string, Json)>)
  {
    forall i, j :: 0 <= i < j < |fields| ==> fields[i].0 != fields[j].0
  }

  lemma GetDistinct(fields: seq<(string, Json)>, i: nat)
    requires DistinctKeys(fields) && i < |fields|
    ensures Get(fields, fields[i].0) == Some(fields[i].1)
  {
    if i > 0 {
      GetDistinct(fields[1..], i - 1);
    }
  }

  /** Python truthiness: null, false, 0, "", [] and {} are false. */
  predicate Truthy(j: Json)
  {
    match j
    case JNull => false
    case JBool(b) => b
    case JNum(n) => n != 0
    case JStr(s) => |s| > 0
    case JArr(items) => |items| > 0
    case JObj(fields) => |fields| > 0
  }

  /** Values Python can use as a dict key or look up in a dict (lists and dicts cannot). */
  predicate Hashable(j: Json)
  {
    !j.JArr? && !j.JObj?
  }

  const MinInt64: int := -0x8000_0000_0000_0000
  const MaxInt64: int := 0x7FFF_FFFF_FFFF_FFFF

  /** Values the sqlite3 module can bind to a statement parameter. */
  predicate Bindable(j: Json)
  {
    match j
    case JNull => true
    case JBool(_) => true
    case JNum(n) => MinInt64 <= n <= MaxInt64
    case JStr(_) => true
    case _ => false
  }
}
