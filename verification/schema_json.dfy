/**
 * The de-duplication key of a schema fragment (openapi_to_sqlite.py, get_schema_as_json_string).
 *
 * The source keys every fragment by `json.dumps(fragment, sort_keys=True)`. The model keeps
 * the serialised text abstract: the key is the canonical JSON value, in which every object's
 * fields are sorted by key, recursively. The serialiser itself is taken to be injective on
 * canonical values, so two texts are equal exactly when their canonical values are.
 */
module SchemaJson {
  import opened Wrappers
  import opened Strs
  import opened JsonValue

  /** Fields whose keys strictly increase in Python's string order. */
  predicate StrictlySorted(fs: seq<(string, Json)>)
  {
    forall i, j :: 0 <= i < j < |fs| ==> LexLess(fs[i].0, fs[j].0)
  }

  /** A field whose key is below the first key of sorted fields can go in front. */
  lemma ConsSorted(p: (string, Json), fs: seq<(string, Json)>)
    requires StrictlySorted(fs) && (|fs| > 0 ==> LexLess(p.0, fs[0].0))
    ensures StrictlySorted([p] + fs)
  {
    var r := [p] + fs;
    forall i, j | 0 <= i < j < |r| ensures LexLess(r[i].0, r[j].0) {
      if i == 0 && j > 1 {
        LexLessTransitive(p.0, fs[0].0, fs[j - 1].0);
      }
    }
  }

  /** One step of sorting a dict's items: insert `p` before the first larger key. */
  function InsertField(p: (string, Json), fs: seq<(string, Json)>): (r: seq<(string, Json)>)
    ensures multiset(r) == multiset(fs) + multiset{p}
    ensures |r| == |fs| + 1
    ensures r[0] == p || (|fs| > 0 && r[0] == fs[0])
    ensures StrictlySorted(fs) && (forall i :: 0 <= i < |fs| ==> fs[i].0 != p.0) ==> StrictlySorted(r)
  {
    if |fs| == 0 then [p]
    else if LexLess(p.0, fs[0].0) then
      assert StrictlySorted(fs) ==> StrictlySorted([p] + fs) by {
        if StrictlySorted(fs) {
          ConsSorted(p, fs);
        }
      }
      [p] + fs
    else
      var rest := InsertField(p, fs[1..]);
      assert fs == [fs[0]] + fs[1..];
      assert StrictlySorted(fs) && (forall i :: 0 <= i < |fs| ==> fs[i].0 != p.0) ==> StrictlySorted([fs[0]] + rest) by {
        if StrictlySorted(fs) && (forall i :: 0 <= i < |fs| ==> fs[i].0 != p.0) {
          if rest[0] == p {
            LexLessTotal(p.0, fs[0].0);
          }
          ConsSorted(fs[0], rest);
        }
      }
      [fs[0]] + rest
  }

  /** Fields with the same multiset of items avoid the same keys. */
  lemma KeyAbsent(a: seq<(string, Json)>, b: seq<(string, Json)>, key: string)
    requires multiset(a) == multiset(b) && forall i :: 0 <= i < |b| ==> b[i].0 != key
    ensures forall i :: 0 <= i < |a| ==> a[i].0 != key
  {
    forall i | 0 <= i < |a| ensures a[i].0 != key {
      assert a[i] in multiset(b);
      var k :| 0 <= k < |b| && b[k] == a[i];
    }
  }

  /** sorted(d.items()): a dict's fields ordered by key. */
  function SortFields(fs: seq<(string, Json)>): (r: seq<(string, Json)>)
    ensures multiset(r) == multiset(fs)
    ensures |r| == |fs|
    ensures DistinctKeys(fs) ==> StrictlySorted(r)
  {
    if |fs| == 0 then []
    else
      var rest := SortFields(fs[1..]);
      assert fs == [fs[0]] + fs[1..];
      assert DistinctKeys(fs) ==> forall i :: 0 <= i < |rest| ==> rest[i].0 != fs[0].0 by {
        if DistinctKeys(fs) {
          var tail := fs[1..];
          assert forall i :: 0 <= i < |tail| ==> tail[i] == fs[i + 1];
          KeyAbsent(rest, tail, fs[0].0);
        }
      }
      InsertField(fs[0], rest)
  }

  /** The canonical form `json.dumps(..., sort_keys=True)` writes out: keys sorted at every level. */
  function Canon(j: Json): Json
    decreases j
  {
    match j
    case JArr(items) =>
      JArr(seq(|items|, i requires 0 <= i < |items| => Canon(items[i])))
    case JObj(fields) =>
      JObj(SortFields(seq(|fields|, i requires 0 <= i < |fields| => (fields[i].0, Canon(fields[i].1)))))
    case _ => j
  }

  /**
   * get_schema_as_json_string: a missing fragment has no text; otherwise the text of the
   * fragment, canonical when `sortKeys` is set.
   */
  function SchemaAsJsonString(obj: Option<Json>, sortKeys: bool): (r: Option<Json>)
    ensures r.None? <==> obj.None?
    ensures obj.Some? && sortKeys ==> r == Some(Canon(obj.value))
  {
    match obj
    case None => None
    case Some(j) => Some(if sortKeys then Canon(j) else j)
  }

  /**
   * Two parsed values that are equal up to the order of keys inside objects. Both sides
   * are loaded dicts, so neither repeats a key.
   */
  ghost predicate Equiv(x: Json, y: Json)
    decreases x
  {
    match x
    case JArr(xs) =>
      y.JArr? && |xs| == |y.items| && forall i :: 0 <= i < |xs| ==> Equiv(xs[i], y.items[i])
    case JObj(fx) =>
      && y.JObj?
      && DistinctKeys(fx) && DistinctKeys(y.fields)
      && (forall k :: k in Keys(fx) <==> k in Keys(y.fields))
      && forall i :: 0 <= i < |fx| ==> Equiv(fx[i].1, GetOr(y.fields, fx[i].0, JNull))
    case _ => x == y
  }

  /** Two strictly sorted field lists holding the same fields are the same list. */
  lemma {:induction false} SortedUnique(a: seq<(string, Json)>, b: seq<(string, Json)>)
    requires StrictlySorted(a) && StrictlySorted(b)
    requires forall p :: p in a <==> p in b
    ensures a == b
  {
    if |b| > 0 {
      assert b[0] in b;
    }
    if |a| > 0 {
      assert a[0] in a;
      var j :| 0 <= j < |b| && b[j] == a[0];
      assert b[0] in b;
      var i :| 0 <= i < |a| && a[i] == b[0];
      if j > 0 {
        if i > 0 {
          LexLessAsymmetric(a[0].0, a[i].0);
        } else {
          LexLessIrreflexive(b[0].0);
        }
      }
      assert a[0] == b[0];
      forall p ensures p in a[1..] <==> p in b[1..] {
        if p in a[1..] {
          var k :| 1 <= k < |a| && a[k] == p;
          LexLessIrreflexive(a[0].0);
          assert p != b[0];
          assert p in b;
        }
        if p in b[1..] {
          var k :| 1 <= k < |b| && b[k] == p;
          LexLessIrreflexive(b[0].0);
          assert p != a[0];
          assert p in a;
        }
      }
      SortedUnique(a[1..], b[1..]);
      assert a == [a[0]] + a[1..] && b == [b[0]] + b[1..];
    }
  }

  /** An object's fields with every value put in canonical form, still in insertion order. */
  function CanonPairs(fields: seq<(string, Json)>): (r: seq<(string, Json)>)
    ensures |r| == |fields| && forall i :: 0 <= i < |fields| ==> r[i] == (fields[i].0, Canon(fields[i].1))
  {
    seq(|fields|, i requires 0 <= i < |fields| => (fields[i].0, Canon(fields[i].1)))
  }

  lemma CanonObject(fields: seq<(string, Json)>)
    ensures Canon(JObj(fields)) == JObj(SortFields(CanonPairs(fields)))
  {
  }

  /**
   * The object step of CanonRespectsEquiv: same keys, no repeats, and values with equal
   * canonical forms give the same sorted canonical field list.
   */
  lemma SameSortedPairs(fx: seq<(string, Json)>, fy: seq<(string, Json)>)
    requires DistinctKeys(fx) && DistinctKeys(fy)
    requires forall k :: k in Keys(fx) <==> k in Keys(fy)
    requires forall i, j :: 0 <= i < |fx| && 0 <= j < |fy| && fx[i].0 == fy[j].0 ==> Canon(fx[i].1) == Canon(fy[j].1)
    ensures SortFields(CanonPairs(fx)) == SortFields(CanonPairs(fy))
  {
    var cx, cy := CanonPairs(fx), CanonPairs(fy);
    forall p ensures p in cx <==> p in cy {
      if p in cx {
        var i :| 0 <= i < |cx| && cx[i] == p;
        assert fx[i].0 in Keys(fx);
        var j :| 0 <= j < |fy| && Keys(fy)[j] == fx[i].0;
        assert cy[j] == p;
      }
      if p in cy {
        var j :| 0 <= j < |cy| && cy[j] == p;
        assert fy[j].0 in Keys(fy);
        var i :| 0 <= i < |fx| && Keys(fx)[i] == fy[j].0;
        assert cx[i] == p;
      }
    }
    assert DistinctKeys(cx) && DistinctKeys(cy);
    var sx, sy := SortFields(cx), SortFields(cy);
    forall p ensures p in sx <==> p in sy {
      assert p in sx <==> p in multiset(sx);
      assert p in sy <==> p in multiset(sy);
      assert p in cx <==> p in multiset(cx);
      assert p in cy <==> p in multiset(cy);
    }
    SortedUnique(sx, sy);
  }

  /** Fragments equal up to key order have the same canonical form, hence the same key. */
  lemma {:induction false} CanonRespectsEquiv(x: Json, y: Json)
    requires Equiv(x, y)
    ensures Canon(x) == Canon(y)
    decreases x
  {
    match x
    case JArr(xs) =>
      forall i | 0 <= i < |xs| ensures Canon(xs[i]) == Canon(y.items[i]) {
        CanonRespectsEquiv(xs[i], y.items[i]);
      }
    case JObj(fx) =>
      var fy := y.fields;
      forall i, j | 0 <= i < |fx| && 0 <= j < |fy| && fx[i].0 == fy[j].0
        ensures Canon(fx[i].1) == Canon(fy[j].1)
      {
        GetDistinct(fy, j);
        CanonRespectsEquiv(fx[i].1, fy[j].1);
      }
      SameSortedPairs(fx, fy);
      CanonObject(fx);
      CanonObject(fy);
    case _ =>
  }
}
