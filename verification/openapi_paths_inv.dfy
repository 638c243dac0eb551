/**
 * What the projection of `paths` keeps: inside an ingestion every step keeps the store's
 * invariant and only appends rows (existing rows, the contracts and the caches stay as they
 * were); the endpoint UNIQUE constraint then turns a repeated verb into a failure; an inline
 * schema is stored whether or not its parameter gets a row.
 */
module OpenApiPathsInv {
  import opened Wrappers
  import opened Strs
  import opened Seqs
  import opened JsonValue
  import opened SchemaJson
  import opened OpenApiTables
  import opened OpenApiStore
  import opened OpenApiPaths

  /** Schema rows carrying a ref path are old rows, unchanged: the projection stores anonymous rows only. */
  ghost predicate RefsKept(a: seq<SchemaRow>, b: seq<SchemaRow>)
  {
    forall i | 0 <= i < |b| && b[i].refPath.Some? :: i < |a| && b[i] == a[i]
  }

  ghost predicate Appends(s: St, s2: St, c: nat)
  {
    Grows(s, s2, c) && RefsKept(s.t.schemas, s2.t.schemas)
  }

  lemma AppendsTrans(s1: St, s2: St, s3: St, c: nat)
    requires Appends(s1, s2, c) && Appends(s2, s3, c)
    ensures Appends(s1, s3, c)
  {
    GrowsTrans(s1, s2, s3, c);
  }

  /** Resolving a schema field never names or claims a row. */
  lemma ResolveKeepsRefs(s: St, c: nat, schema: Json)
    requires ResolveSchema(s, c, schema).Ok?
    ensures RefsKept(s.t.schemas, ResolveSchema(s, c, schema).value.0.t.schemas)
  {
  }

  /** Appending rows below a contract's endpoints, without touching schemas or caches, keeps the invariant. */
  lemma AppendKeepsInv(s: St, s2: St, c: nat)
    requires Inv(s, c) && Valid(s2.t)
    requires s2.byContent == s.byContent && s2.byRef == s.byRef
    requires s2.t.schemas == s.t.schemas && s2.t.nextSchema == s.t.nextSchema
    requires s2.t.contracts == s.t.contracts && s2.t.nextContract == s.t.nextContract
    requires s.t.endpoints <= s2.t.endpoints && s.t.nextEndpoint <= s2.t.nextEndpoint
    requires s.t.parameters <= s2.t.parameters && s.t.nextParameter <= s2.t.nextParameter
    requires s.t.requestBodies <= s2.t.requestBodies && s.t.nextRequestBody <= s2.t.nextRequestBody
    requires s.t.responses <= s2.t.responses && s.t.nextResponse <= s2.t.nextResponse
    ensures Inv(s2, c) && Appends(s, s2, c)
  {
  }

  lemma ResolveThenAppend(s: St, c: nat, schema: Json, s2: St)
    requires Inv(s, c) && ResolveSchema(s, c, schema).Ok?
    requires var s1 := ResolveSchema(s, c, schema).value.0;
      && Valid(s2.t)
      && s2.byContent == s1.byContent && s2.byRef == s1.byRef
      && s2.t.schemas == s1.t.schemas && s2.t.nextSchema == s1.t.nextSchema
      && s2.t.contracts == s1.t.contracts && s2.t.nextContract == s1.t.nextContract
      && s1.t.endpoints <= s2.t.endpoints && s1.t.nextEndpoint <= s2.t.nextEndpoint
      && s1.t.parameters <= s2.t.parameters && s1.t.nextParameter <= s2.t.nextParameter
      && s1.t.requestBodies <= s2.t.requestBodies && s1.t.nextRequestBody <= s2.t.nextRequestBody
      && s1.t.responses <= s2.t.responses && s1.t.nextResponse <= s2.t.nextResponse
    ensures Inv(s2, c) && Appends(s, s2, c)
  {
    var s1 := ResolveSchema(s, c, schema).value.0;
    ResolveKeepsInv(s, c, schema);
    ResolveKeepsRefs(s, c, schema);
    AppendKeepsInv(s1, s2, c);
    AppendsTrans(s, s1, s2, c);
  }

  lemma ParamStepKeepsInv(s: St, c: nat, e: nat, p: Json)
    requires Inv(s, c) && ParamStep(s, c, e, p).Ok?
    ensures Inv(ParamStep(s, c, e, p).value, c) && Appends(s, ParamStep(s, c, e, p).value, c)
  {
    if p.JObj? {
      ResolveKeepsInv(s, c, Field(p, "schema"));
      ResolveKeepsRefs(s, c, Field(p, "schema"));
      if ParamWanted(p) {
        ResolveThenAppend(s, c, Field(p, "schema"), ParamStep(s, c, e, p).value);
      }
    }
  }

  lemma {:induction false} ParamsKeepInv(s: St, c: nat, e: nat, items: seq<Json>)
    requires Inv(s, c) && Params(s, c, e, items).Ok?
    ensures Inv(Params(s, c, e, items).value, c) && Appends(s, Params(s, c, e, items).value, c)
    decreases |items|
  {
    if |items| > 0 {
      var init := items[..|items| - 1];
      ParamsKeepInv(s, c, e, init);
      var s1 := Params(s, c, e, init).value;
      ParamStepKeepsInv(s1, c, e, items[|items| - 1]);
      AppendsTrans(s, s1, Params(s, c, e, items).value, c);
    }
  }

  lemma BodyStepKeepsInv(s: St, c: nat, e: nat, desc: Json, req: Json, media: (string, Json))
    requires Inv(s, c) && BodyStep(s, c, e, desc, req, media).Ok?
    ensures Inv(BodyStep(s, c, e, desc, req, media).value, c) && Appends(s, BodyStep(s, c, e, desc, req, media).value, c)
  {
    if media.1.JObj? {
      ResolveKeepsInv(s, c, Field(media.1, "schema"));
      ResolveThenAppend(s, c, Field(media.1, "schema"), BodyStep(s, c, e, desc, req, media).value);
    }
  }

  lemma {:induction false} BodiesKeepInv(s: St, c: nat, e: nat, desc: Json, req: Json, medias: seq<(string, Json)>)
    requires Inv(s, c) && Bodies(s, c, e, desc, req, medias).Ok?
    ensures Inv(Bodies(s, c, e, desc, req, medias).value, c) && Appends(s, Bodies(s, c, e, desc, req, medias).value, c)
    decreases |medias|
  {
    if |medias| > 0 {
      var init := medias[..|medias| - 1];
      BodiesKeepInv(s, c, e, desc, req, init);
      var s1 := Bodies(s, c, e, desc, req, init).value;
      BodyStepKeepsInv(s1, c, e, desc, req, medias[|medias| - 1]);
      AppendsTrans(s, s1, Bodies(s, c, e, desc, req, medias).value, c);
    }
  }

  lemma MediaStepKeepsInv(s: St, c: nat, e: nat, code: string, desc: Json, media: (string, Json))
    requires Inv(s, c) && MediaStep(s, c, e, code, desc, media).Ok?
    ensures Inv(MediaStep(s, c, e, code, desc, media).value, c) && Appends(s, MediaStep(s, c, e, code, desc, media).value, c)
  {
    if media.1.JObj? {
      ResolveKeepsInv(s, c, Field(media.1, "schema"));
      ResolveThenAppend(s, c, Field(media.1, "schema"), MediaStep(s, c, e, code, desc, media).value);
    }
  }

  lemma {:induction false} MediasKeepInv(s: St, c: nat, e: nat, code: string, desc: Json, medias: seq<(string, Json)>)
    requires Inv(s, c) && Medias(s, c, e, code, desc, medias).Ok?
    ensures Inv(Medias(s, c, e, code, desc, medias).value, c) && Appends(s, Medias(s, c, e, code, desc, medias).value, c)
    decreases |medias|
  {
    if |medias| > 0 {
      var init := medias[..|medias| - 1];
      MediasKeepInv(s, c, e, code, desc, init);
      var s1 := Medias(s, c, e, code, desc, init).value;
      MediaStepKeepsInv(s1, c, e, code, desc, medias[|medias| - 1]);
      AppendsTrans(s, s1, Medias(s, c, e, code, desc, medias).value, c);
    }
  }

  lemma ResponseStepKeepsInv(s: St, c: nat, e: nat, resp: (string, Json))
    requires Inv(s, c) && ResponseStep(s, c, e, resp).Ok?
    ensures Inv(ResponseStep(s, c, e, resp).value, c) && Appends(s, ResponseStep(s, c, e, resp).value, c)
  {
    if resp.1.JObj? {
      var content := Field(resp.1, "content");
      if content.JObj? {
        MediasKeepInv(s, c, e, resp.0, Field(resp.1, "description"), content.fields);
      } else {
        AppendKeepsInv(s, ResponseStep(s, c, e, resp).value, c);
      }
    }
  }

  lemma {:induction false} ResponsesKeepInv(s: St, c: nat, e: nat, resps: seq<(string, Json)>)
    requires Inv(s, c) && Responses(s, c, e, resps).Ok?
    ensures Inv(Responses(s, c, e, resps).value, c) && Appends(s, Responses(s, c, e, resps).value, c)
    decreases |resps|
  {
    if |resps| > 0 {
      var init := resps[..|resps| - 1];
      ResponsesKeepInv(s, c, e, init);
      var s1 := Responses(s, c, e, init).value;
      ResponseStepKeepsInv(s1, c, e, resps[|resps| - 1]);
      AppendsTrans(s, s1, Responses(s, c, e, resps).value, c);
    }
  }

  lemma RequestBodyKeepsInv(s: St, c: nat, e: nat, o: Json)
    requires Inv(s, c) && RequestBody(s, c, e, o).Ok?
    ensures Inv(RequestBody(s, c, e, o).value, c) && Appends(s, RequestBody(s, c, e, o).value, c)
  {
    if HasBodyContent(o) {
      var rb := Field(o, "requestBody");
      BodiesKeepInv(s, c, e, Field(rb, "description"), BodyRequired(o), Field(rb, "content").fields);
    }
  }

  lemma ResponsesOfKeepsInv(s: St, c: nat, e: nat, o: Json)
    requires Inv(s, c) && ResponsesOf(s, c, e, o).Ok?
    ensures Inv(ResponsesOf(s, c, e, o).value, c) && Appends(s, ResponsesOf(s, c, e, o).value, c)
  {
    if Field(o, "responses").JObj? {
      ResponsesKeepInv(s, c, e, Field(o, "responses").fields);
    }
  }

  lemma EndpointChildrenKeepInv(s: St, c: nat, e: nat, item: Json, o: Json)
    requires item.JObj? && o.JObj?
    requires Inv(s, c) && EndpointChildren(s, c, e, item, o).Ok?
    ensures Inv(EndpointChildren(s, c, e, item, o).value, c) && Appends(s, EndpointChildren(s, c, e, item, o).value, c)
  {
    var items := ParamItems(o, item).value;
    ParamsKeepInv(s, c, e, items);
    var s2 := Params(s, c, e, items).value;
    RequestBodyKeepsInv(s2, c, e, o);
    var s3 := RequestBody(s2, c, e, o).value;
    AppendsTrans(s, s2, s3, c);
    ResponsesOfKeepsInv(s3, c, e, o);
    assert EndpointChildren(s, c, e, item, o) == ResponsesOf(s3, c, e, o);
    AppendsTrans(s, s3, ResponsesOf(s3, c, e, o).value, c);
  }

  lemma OperationStepKeepsInv(s: St, c: nat, path: string, item: Json, op: (string, Json))
    requires item.JObj? && Inv(s, c) && OperationStep(s, c, path, item, op).Ok?
    ensures Inv(OperationStep(s, c, path, item, op).value, c) && Appends(s, OperationStep(s, c, path, item, op).value, c)
  {
    if IsOperation(op) {
      var o := op.1;
      var row := EndpointRow(0, c, path, Upper(op.0), Field(o, "operationId"), Field(o, "summary"), Field(o, "description"));
      var (t1, e) := InsertEndpoint(s.t, row).value;
      AppendKeepsInv(s, s.(t := t1), c);
      EndpointChildrenKeepInv(s.(t := t1), c, e, item, o);
      AppendsTrans(s, s.(t := t1), OperationStep(s, c, path, item, op).value, c);
    }
  }

  lemma {:induction false} OperationsKeepInv(s: St, c: nat, path: string, item: Json, ops: seq<(string, Json)>)
    requires item.JObj? && Inv(s, c) && Operations(s, c, path, item, ops).Ok?
    ensures Inv(Operations(s, c, path, item, ops).value, c) && Appends(s, Operations(s, c, path, item, ops).value, c)
    decreases |ops|
  {
    if |ops| > 0 {
      var init := ops[..|ops| - 1];
      OperationsKeepInv(s, c, path, item, init);
      var s1 := Operations(s, c, path, item, init).value;
      OperationStepKeepsInv(s1, c, path, item, ops[|ops| - 1]);
      AppendsTrans(s, s1, Operations(s, c, path, item, ops).value, c);
    }
  }

  /** Inside an ingestion the projection of `paths` keeps the invariant and only appends rows. */
  lemma {:induction false} PathsKeepInv(s: St, c: nat, entries: seq<(string, Json)>)
    requires Inv(s, c) && Paths(s, c, entries).Ok?
    ensures Inv(Paths(s, c, entries).value, c) && Appends(s, Paths(s, c, entries).value, c)
    decreases |entries|
  {
    if |entries| > 0 {
      var init, last := entries[..|entries| - 1], entries[|entries| - 1];
      PathsKeepInv(s, c, init);
      var s1 := Paths(s, c, init).value;
      if last.1.JObj? {
        OperationsKeepInv(s1, c, last.0, last.1, last.1.fields);
        AppendsTrans(s, s1, Paths(s, c, entries).value, c);
      }
    }
  }

  /** No two endpoint rows agree on (contract_id, path, http_verb). */
  predicate KeysDistinct(v: seq<(nat, string, string, Json, Json, Json)>)
  {
    forall p, q :: 0 <= p < q < |v| ==> (v[p].0, v[p].1, v[p].2) != (v[q].0, v[q].1, v[q].2)
  }

  /** Rows appended to a table whose keys are unique have pairwise distinct keys. */
  lemma SuffixKeysDistinct(rows: seq<EndpointRow>, n: nat)
    requires EndpointKeysUnique(rows) && n <= |rows|
    ensures KeysDistinct(Map(EndpointView, rows[n..]))
  {
    var v := Map(EndpointView, rows[n..]);
    forall p, q | 0 <= p < q < |v| ensures (v[p].0, v[p].1, v[p].2) != (v[q].0, v[q].1, v[q].2) {
      assert v[p] == EndpointView(rows[n + p]) && v[q] == EndpointView(rows[n + q]);
    }
  }

  /** A successful projection adds endpoint rows with pairwise distinct keys. */
  lemma PathsEndpointsDistinct(s: St, c: nat, entries: seq<(string, Json)>)
    requires Inv(s, c)
    ensures Paths(s, c, entries).Ok? ==> KeysDistinct(PathRows(c, entries))
  {
    if Paths(s, c, entries).Ok? {
      PathsKeepInv(s, c, entries);
      var rows := Paths(s, c, entries).value.t.endpoints;
      assert EndpointKeysUnique(rows);
      SuffixKeysDistinct(rows, |s.t.endpoints|);
    }
  }

  /** Two qualifying entries of one path item give two endpoint rows with the verbs they name. */
  lemma OpRowsTwo(c: nat, path: string, ops: seq<(string, Json)>, i: nat, j: nat)
    requires i < j < |ops| && IsOperation(ops[i]) && IsOperation(ops[j])
    ensures exists p, q :: (0 <= p < q < |OpRows(c, path, ops)|
      && OpRows(c, path, ops)[p] == OpRow(c, path, ops[i])[0] && OpRows(c, path, ops)[q] == OpRow(c, path, ops[j])[0])
  {
    var f := (op: (string, Json)) => OpRow(c, path, op);
    var rest := ops[i + 1..];
    FlatMapAt(f, ops, i);
    FlatMapAt(f, rest, j - i - 1);
    assert rest[j - i - 1] == ops[j];
    var p := |FlatMap(f, ops[..i])|;
    var q := p + 1 + |FlatMap(f, rest[..j - i - 1])|;
    assert OpRows(c, path, ops)[p] == OpRow(c, path, ops[i])[0];
    assert OpRows(c, path, ops)[q] == OpRow(c, path, ops[j])[0];
  }

  /** Two operations of one path item whose verbs agree once upper-cased repeat an endpoint key. */
  lemma RepeatedVerbKeys(c: nat, entries: seq<(string, Json)>, k: nat, i: nat, j: nat)
    requires k < |entries| && entries[k].1.JObj?
    requires i < j < |entries[k].1.fields|
    requires IsOperation(entries[k].1.fields[i]) && IsOperation(entries[k].1.fields[j])
    requires Upper(entries[k].1.fields[i].0) == Upper(entries[k].1.fields[j].0)
    ensures !KeysDistinct(PathRows(c, entries))
  {
    var f := (entry: (string, Json)) => PathItemRows(c, entry);
    FlatMapAt(f, entries, k);
    var ops := entries[k].1.fields;
    OpRowsTwo(c, entries[k].0, ops, i, j);
    var v := OpRows(c, entries[k].0, ops);
    var p, q :| 0 <= p < q < |v| && v[p] == OpRow(c, entries[k].0, ops[i])[0] && v[q] == OpRow(c, entries[k].0, ops[j])[0];
    assert (v[p].0, v[p].1, v[p].2) == (v[q].0, v[q].1, v[q].2);
    RepeatInside(FlatMap(f, entries[..k]), v, FlatMap(f, entries[k + 1..]), p, q);
  }

  /** Two rows of a block with one key repeat that key in any table holding the block. */
  lemma RepeatInside(a: seq<(nat, string, string, Json, Json, Json)>, v: seq<(nat, string, string, Json, Json, Json)>,
                     b: seq<(nat, string, string, Json, Json, Json)>, p: nat, q: nat)
    requires p < q < |v| && (v[p].0, v[p].1, v[p].2) == (v[q].0, v[q].1, v[q].2)
    ensures !KeysDistinct(a + v + b)
  {
    var w := a + v + b;
    assert w[|a| + p] == v[p] && w[|a| + q] == v[q];
  }

  /**
   * A path item holding two operations whose verbs differ only in case (`get` and `GET`)
   * makes the projection fail: both map to one (contract_id, path, http_verb) key.
   */
  lemma RepeatedVerbFails(s: St, c: nat, entries: seq<(string, Json)>, k: nat, i: nat, j: nat)
    requires Inv(s, c) && k < |entries| && entries[k].1.JObj?
    requires i < j < |entries[k].1.fields|
    requires IsOperation(entries[k].1.fields[i]) && IsOperation(entries[k].1.fields[j])
    requires Upper(entries[k].1.fields[i].0) == Upper(entries[k].1.fields[j].0)
    ensures Paths(s, c, entries).Err?
  {
    RepeatedVerbKeys(c, entries, k, i, j);
    PathsEndpointsDistinct(s, c, entries);
  }

  /**
   * A parameter's inline schema is stored, and its text cached, even when the parameter
   * itself gets no row because `name` or `in` is missing.
   */
  lemma ParamSchemaStored(s: St, c: nat, e: nat, p: Json)
    requires p.JObj? && IsInline(Field(p, "schema")) && ParamStep(s, c, e, p).Ok?
    ensures Canon(Field(p, "schema")) in ParamStep(s, c, e, p).value.byContent
    ensures !ParamWanted(p) ==> ParamStep(s, c, e, p).value.t.parameters == s.t.parameters
  {
    StoreAnonymousSucceeds(s, c, Field(p, "schema"));
    var r := ParamStep(s, c, e, p).value;
    if !ParamWanted(p) {
      assert |Map(ParamKey, r.t.parameters[|s.t.parameters|..])| == 0;
      assert r.t.parameters == s.t.parameters + r.t.parameters[|s.t.parameters|..];
    }
  }
}
