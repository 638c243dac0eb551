/**
 * The schema de-duplication store of openapi_to_sqlite.py: `_store_schema_definition_and_get_id`
 * and the resolution of the `schema` field of a parameter, request body or response.
 *
 * The transaction state `St` is the working copy of the tables together with the two caches
 * the ingestion threads through every call: schema text to id, and component ref path to id.
 */
module OpenApiStore {
  import opened Wrappers
  import opened JsonValue
  import opened SchemaJson
  import opened OpenApiTables

  /** The open transaction: working tables, `schema_json_to_id_cache`, `schema_ref_to_id_cache`. */
  datatype St = St(t: Tables, byContent: map<Json, nat>, byRef: map<string, nat>)

  /** Some schema row has this id, belongs to contract `c` and holds this text. */
  ghost predicate Holds(rows: seq<SchemaRow>, id: nat, c: nat, content: Json)
  {
    exists i :: 0 <= i < |rows| && rows[i].id == id && rows[i].contractId == c && rows[i].content == content
  }

  /** Some schema row has this id and belongs to contract `c`. */
  ghost predicate OfContract(rows: seq<SchemaRow>, id: nat, c: nat)
  {
    exists i :: 0 <= i < |rows| && rows[i].id == id && rows[i].contractId == c
  }

  /**
   * What holds between the calls of one ingestion into contract `c`: the tables are valid,
   * the content cache names exactly the rows of `c` (each text maps to the row holding it,
   * and every row of `c` is cached), and the ref cache points at rows of `c`.
   */
  ghost predicate Inv(s: St, c: nat)
  {
    && Valid(s.t)
    && c < s.t.nextContract
    && (forall k | k in s.byContent :: Holds(s.t.schemas, s.byContent[k], c, k))
    && (forall i | 0 <= i < |s.t.schemas| && s.t.schemas[i].contractId == c :: s.t.schemas[i].content in s.byContent)
    && (forall p | p in s.byRef :: OfContract(s.t.schemas, s.byRef[p], c))
  }

  /**
   * Schema rows are only appended or claimed: every existing row keeps its id, contract and
   * text, and a row of another contract or one that already has a ref path does not change.
   */
  ghost predicate SchemasExtend(a: seq<SchemaRow>, b: seq<SchemaRow>, c: nat)
  {
    && |a| <= |b|
    && (forall i :: 0 <= i < |a| ==> b[i].id == a[i].id && b[i].contractId == a[i].contractId && b[i].content == a[i].content)
    && (forall i :: 0 <= i < |a| && (a[i].contractId != c || a[i].refPath.Some?) ==> b[i] == a[i])
  }

  /** Contracts are untouched and every other table only grows at its end. */
  ghost predicate Extends(t: Tables, t2: Tables, c: nat)
  {
    && t2.contracts == t.contracts && t2.nextContract == t.nextContract
    && SchemasExtend(t.schemas, t2.schemas, c) && t.nextSchema <= t2.nextSchema
    && t.endpoints <= t2.endpoints && t.nextEndpoint <= t2.nextEndpoint
    && t.parameters <= t2.parameters && t.nextParameter <= t2.nextParameter
    && t.requestBodies <= t2.requestBodies && t.nextRequestBody <= t2.nextRequestBody
    && t.responses <= t2.responses && t.nextResponse <= t2.nextResponse
  }

  /** Neither cache forgets or rebinds an entry. */
  ghost predicate CachesGrow(s: St, s2: St)
  {
    && (forall k | k in s.byContent :: k in s2.byContent && s2.byContent[k] == s.byContent[k])
    && (forall p | p in s.byRef :: p in s2.byRef && s2.byRef[p] == s.byRef[p])
  }

  ghost predicate Grows(s: St, s2: St, c: nat)
  {
    Extends(s.t, s2.t, c) && CachesGrow(s, s2)
  }

  lemma PrefixTrans<T>(a: seq<T>, b: seq<T>, d: seq<T>)
    requires a <= b && b <= d
    ensures a <= d
  {
    assert forall i :: 0 <= i < |a| ==> a[i] == b[i] == d[i];
  }

  lemma GrowsTrans(s1: St, s2: St, s3: St, c: nat)
    requires Grows(s1, s2, c) && Grows(s2, s3, c)
    ensures Grows(s1, s3, c)
  {
    PrefixTrans(s1.t.endpoints, s2.t.endpoints, s3.t.endpoints);
    PrefixTrans(s1.t.parameters, s2.t.parameters, s3.t.parameters);
    PrefixTrans(s1.t.requestBodies, s2.t.requestBodies, s3.t.requestBodies);
    PrefixTrans(s1.t.responses, s2.t.responses, s3.t.responses);
  }

  lemma ClaimKeepsInv(s: St, c: nat, id: nat, name: Option<string>, ref: Option<string>)
    requires Inv(s, c) && OfContract(s.t.schemas, id, c)
    ensures Inv(s.(t := Claim(s.t, id, name, ref)), c)
    ensures Extends(s.t, Claim(s.t, id, name, ref), c)
  {
    ClaimKeepsCaches(s, c, id, name, ref);
    ClaimExtends(s, c, id, name, ref);
  }

  lemma ClaimKeepsCaches(s: St, c: nat, id: nat, name: Option<string>, ref: Option<string>)
    requires Inv(s, c)
    ensures Inv(s.(t := Claim(s.t, id, name, ref)), c)
  {
    var t2 := Claim(s.t, id, name, ref);
    var a, b := s.t.schemas, t2.schemas;
    forall k | k in s.byContent ensures Holds(b, s.byContent[k], c, k) {
      var i :| 0 <= i < |a| && a[i].id == s.byContent[k] && a[i].contractId == c && a[i].content == k;
      assert b[i].id == a[i].id;
    }
    forall p | p in s.byRef ensures OfContract(b, s.byRef[p], c) {
      var i :| 0 <= i < |a| && a[i].id == s.byRef[p] && a[i].contractId == c;
      assert b[i].id == a[i].id;
    }
  }

  lemma ClaimExtends(s: St, c: nat, id: nat, name: Option<string>, ref: Option<string>)
    requires Valid(s.t) && OfContract(s.t.schemas, id, c)
    ensures Extends(s.t, Claim(s.t, id, name, ref), c)
  {
    var t2 := Claim(s.t, id, name, ref);
    var a, b := s.t.schemas, t2.schemas;
    var j :| 0 <= j < |a| && a[j].id == id && a[j].contractId == c;
    forall i | 0 <= i < |a| && (a[i].contractId != c || a[i].refPath.Some?) ensures b[i] == a[i] {
      if a[i].id == id && a[i].refPath.None? {
        assert i == j;
      }
    }
    assert SchemasExtend(a, b, c);
  }

  lemma InsertKeepsInv(s: St, c: nat, name: Option<string>, ref: Option<string>, key: Json)
    requires Inv(s, c) && key !in s.byContent
    requires InsertSchema(s.t, c, name, ref, key).Some?
    ensures var (t', id) := InsertSchema(s.t, c, name, ref, key).value;
      Inv(St(t', s.byContent[key := id], s.byRef), c) && Extends(s.t, t', c)
  {
    var (t', id) := InsertSchema(s.t, c, name, ref, key).value;
    var a, b := s.t.schemas, t'.schemas;
    assert b[|a|].id == id;
    var m := s.byContent[key := id];
    forall k | k in m ensures Holds(b, m[k], c, k) {
      if k != key {
        var i :| 0 <= i < |a| && a[i].id == s.byContent[k] && a[i].contractId == c && a[i].content == k;
        assert b[i] == a[i];
      } else {
        assert b[|a|].contractId == c && b[|a|].content == key;
      }
    }
    forall p | p in s.byRef ensures OfContract(b, s.byRef[p], c) {
      var i :| 0 <= i < |a| && a[i].id == s.byRef[p] && a[i].contractId == c;
      assert b[i] == a[i];
    }
  }

  /**
   * _store_schema_definition_and_get_id: the id of the row holding this fragment's sorted-key
   * text, inserting the row when its text is new. A hit in the content cache, or an insert
   * rejected by a UNIQUE constraint whose text is already in the table, returns the existing
   * row after trying to claim it for the component; an insert rejected only because another
   * row holds the ref path returns None and changes nothing.
   */
  function StoreSchema(s: St, c: nat, fragment: Option<Json>, name: Option<string>, ref: Option<string>)
    : (r: (St, Option<nat>))
    // A missing fragment has no text: nothing is stored.
    ensures fragment.None? ==> r == (s, None)
    ensures r.1.None? ==> r.0 == s
    // The returned id is what the content cache now holds for the fragment's text.
    ensures r.1.Some? ==> fragment.Some? && Canon(fragment.value) in r.0.byContent
                          && r.0.byContent[Canon(fragment.value)] == r.1.value
    ensures r.0.byRef == s.byRef && CachesGrow(s, r.0)
    ensures r.0.t == s.t.(schemas := r.0.t.schemas, nextSchema := r.0.t.nextSchema)
    // Every new or changed row carries the supplied name and ref path.
    ensures |s.t.schemas| <= |r.0.t.schemas|
    ensures forall i :: 0 <= i < |r.0.t.schemas| && (i >= |s.t.schemas| || r.0.t.schemas[i] != s.t.schemas[i]) ==>
      r.0.t.schemas[i].name == name && r.0.t.schemas[i].refPath == ref
    // A row is added only for text no row of the contract holds yet.
    ensures |r.0.t.schemas| != |s.t.schemas| ==> fragment.Some? && ContentFree(s.t.schemas, c, Canon(fragment.value))
  {
    match SchemaAsJsonString(fragment, true)
    case None => (s, None)
    case Some(key) =>
      if key in s.byContent then
        var id := s.byContent[key];
        (s.(t := Claim(s.t, id, name, ref)), Some(id))
      else match InsertSchema(s.t, c, name, ref, key)
        case Some((t', id)) => (St(t', s.byContent[key := id], s.byRef), Some(id))
        case None =>
          match ContentIndex(s.t.schemas, c, key)
          case Some(k) =>
            var id := s.t.schemas[k].id;
            (St(Claim(s.t, id, name, ref), s.byContent[key := id], s.byRef), Some(id))
          case None => (s, None)
  }

  /**
   * Inside an ingestion the store keeps the invariant and only extends the tables; the id it
   * returns names a row of the contract holding the fragment's text; it fails only for new
   * text whose ref path another row of the contract already holds.
   */
  lemma StoreKeepsInv(s: St, c: nat, fragment: Option<Json>, name: Option<string>, ref: Option<string>)
    requires Inv(s, c)
    ensures var r := StoreSchema(s, c, fragment, name, ref);
      Inv(r.0, c) && Extends(s.t, r.0.t, c)
    ensures var r := StoreSchema(s, c, fragment, name, ref);
      r.1.Some? ==> Holds(r.0.t.schemas, r.1.value, c, Canon(fragment.value))
    ensures fragment.Some? && StoreSchema(s, c, fragment, name, ref).1.None? ==>
      Canon(fragment.value) !in s.byContent && ref.Some? && !RefFree(s.t.schemas, c, ref.value)
  {
    if fragment.Some? {
      var key := Canon(fragment.value);
      if key in s.byContent {
        ClaimKeepsInv(s, c, s.byContent[key], name, ref);
      } else if InsertSchema(s.t, c, name, ref, key).Some? {
        InsertKeepsInv(s, c, name, ref, key);
      }
    }
  }

  /**
   * A fragment stored without a ref path always gets an id: a failed insert can only be a
   * duplicate text, whose row is then found.
   */
  lemma StoreAnonymousSucceeds(s: St, c: nat, fragment: Json)
    ensures StoreSchema(s, c, Some(fragment), None, None).1.Some?
  {
    var key := Canon(fragment);
    if key !in s.byContent && InsertSchema(s.t, c, None, None, key).None? {
      assert !ContentFree(s.t.schemas, c, key);
    }
  }

  /**
   * The `schema` field of a parameter, request body or response. A dict with a top-level
   * `$ref` is looked up in the ref cache and never stored; any other dict is stored whole
   * through StoreSchema; anything else leaves the column NULL. Looking up an unhashable
   * `$ref` value (a list or dict) raises TypeError.
   */
  function ResolveSchema(s: St, c: nat, schema: Json): (r: Result<(St, Option<nat>), Failure>)
    ensures !schema.JObj? ==> r == Ok((s, None))
    ensures r.Err? <==> HasKey(schema, "$ref") && !Hashable(Field(schema, "$ref"))
    ensures r.Err? ==> r.error == UnexpectedError
    // A `$ref` schema stores nothing and resolves exactly when its target is cached.
    ensures HasKey(schema, "$ref") && r.Ok? ==>
      && r.value.0 == s
      && (r.value.1.Some? <==> Field(schema, "$ref").JStr? && Field(schema, "$ref").s in s.byRef)
      && (r.value.1.Some? ==> r.value.1.value == s.byRef[Field(schema, "$ref").s])
    // Any other dict is stored whole, nested `$ref`s included.
    ensures schema.JObj? && !HasKey(schema, "$ref") ==> r == Ok(StoreSchema(s, c, Some(schema), None, None))
    ensures r.Ok? ==> r.value.0.byRef == s.byRef && CachesGrow(s, r.value.0)
  {
    if !schema.JObj? then Ok((s, None))
    else if HasKey(schema, "$ref") then
      match Field(schema, "$ref")
      case JStr(p) => Ok((s, if p in s.byRef then Some(s.byRef[p]) else None))
      case JArr(_) => Err(UnexpectedError)
      case JObj(_) => Err(UnexpectedError)
      case _ => Ok((s, None))
    else
      Ok(StoreSchema(s, c, Some(schema), None, None))
  }

  /** Inside an ingestion, resolving keeps the invariant, and an inline schema always gets an id. */
  lemma ResolveKeepsInv(s: St, c: nat, schema: Json)
    requires Inv(s, c) && ResolveSchema(s, c, schema).Ok?
    ensures Inv(ResolveSchema(s, c, schema).value.0, c)
    ensures Grows(s, ResolveSchema(s, c, schema).value.0, c)
    ensures IsInline(schema) ==> ResolveSchema(s, c, schema).value.1.Some?
  {
    if IsInline(schema) {
      StoreKeepsInv(s, c, Some(schema), None, None);
    }
  }

  /** A schema that is stored rather than looked up: a dict without a top-level `$ref`. */
  predicate IsInline(schema: Json)
  {
    schema.JObj? && !HasKey(schema, "$ref")
  }

  /** Storing a fragment twice, or two fragments equal up to key order, gives one id and one row. */
  lemma StoreSameContent(s: St, c: nat, f1: Json, f2: Json, n1: Option<string>, r1: Option<string>, n2: Option<string>, r2: Option<string>)
    requires Inv(s, c) && Equiv(f1, f2)
    requires StoreSchema(s, c, Some(f1), n1, r1).1.Some?
    ensures var (s1, id1) := StoreSchema(s, c, Some(f1), n1, r1);
      var (s2, id2) := StoreSchema(s1, c, Some(f2), n2, r2);
      id2 == id1 && |s2.t.schemas| == |s1.t.schemas|
  {
    CanonRespectsEquiv(f1, f2);
  }
}
