/**
 * The body of the transaction in save_openapi_spec_to_sqlite (openapi_to_sqlite.py), as a
 * function of the committed tables and the parsed document: insert the contract row, run the
 * two component passes from empty caches, then project `paths`. The first exception ends it.
 *
 * The component id (the file's base name), the tree text and the raw document text are
 * parameters: the file system, the YAML parser and the tree renderer are not part of this model.
 */
module OpenApiIngest {
  import opened Wrappers
  import opened Strs
  import opened Seqs
  import opened JsonValue
  import opened SchemaJson
  import opened OpenApiTables
  import opened OpenApiStore
  import opened OpenApiPasses
  import opened OpenApiPaths
  import opened OpenApiPathsInv

  /** `spec.get("info", {})`. */
  function Info(spec: Json): Json
    requires spec.JObj?
  {
    GetOr(spec.fields, "info", JObj([]))
  }

  /** `input_contract_title or info.get("title", "Untitled Contract")`. */
  function ContractTitle(info: Json, titleOverride: Option<string>): (r: Json)
    requires info.JObj?
    ensures Given(titleOverride) ==> r == JStr(titleOverride.value)
    ensures !Given(titleOverride) && !HasKey(info, "title") ==> r == JStr("Untitled Contract")
    ensures !Given(titleOverride) && HasKey(info, "title") ==> r == Get(info.fields, "title").value
  {
    if Given(titleOverride) then JStr(titleOverride.value) else GetOr(info.fields, "title", JStr("Untitled Contract"))
  }

  /**
   * The api_contracts row (its id still unset). An `info` that is not a dict raises
   * AttributeError even when a title is supplied, because `info.get("version")` is still
   * evaluated; a version or title sqlite3 cannot bind raises when the row is inserted.
   */
  function ContractOf(spec: Json, componentId: string, tree: string, raw: string, titleOverride: Option<string>)
    : (r: Result<ContractRow, Failure>)
    requires spec.JObj?
    ensures !Info(spec).JObj? ==> r == Err(UnexpectedError)
    // The three document values of the row, with the source's defaults; the row is refused
    // exactly when one of them cannot be bound.
    ensures Info(spec).JObj? ==>
      var version, title, apiVersion := GetOr(spec.fields, "openapi", JStr("Unknown")), ContractTitle(Info(spec), titleOverride),
                                        GetOr(Info(spec).fields, "version", JStr("Unknown"));
      && (r.Ok? <==> Bindable(version) && Bindable(title) && Bindable(apiVersion))
      && (r.Ok? ==> r.value == ContractRow(0, componentId, version, title, apiVersion, tree, raw))
  {
    var info := Info(spec);
    if !info.JObj? then Err(UnexpectedError)
    else
      var row := ContractRow(0, componentId, GetOr(spec.fields, "openapi", JStr("Unknown")),
                             ContractTitle(info, titleOverride), GetOr(info.fields, "version", JStr("Unknown")), tree, raw);
      var binds := [row.openapiVersion, row.title, row.version];
      assert binds[0] == row.openapiVersion && binds[1] == row.title && binds[2] == row.version;
      match BindFailure(binds)
      case Some(f) => Err(f)
      case None => Ok(row)
  }

  /** `spec.get("components", {}).get("schemas", {}).items()`: both levels must be dicts. */
  function ComponentsOf(spec: Json): (r: Result<seq<(string, Json)>, Failure>)
    requires spec.JObj?
    // Succeeds exactly when `components` and its `schemas` are dicts or absent.
    ensures r.Ok? <==> (!HasKey(spec, "components") || (Field(spec, "components").JObj?
                        && (!HasKey(Field(spec, "components"), "schemas") || Field(Field(spec, "components"), "schemas").JObj?)))
    ensures r.Err? ==> r.error == UnexpectedError
    ensures r.Ok? && HasKey(spec, "components") && HasKey(Field(spec, "components"), "schemas") ==>
              r.value == Field(Field(spec, "components"), "schemas").fields
    ensures r.Ok? && (!HasKey(spec, "components") || !HasKey(Field(spec, "components"), "schemas")) ==> r.value == []
  {
    var comps := GetOr(spec.fields, "components", JObj([]));
    if !comps.JObj? then Err(UnexpectedError)
    else
      var schemas := GetOr(comps.fields, "schemas", JObj([]));
      if schemas.JObj? then Ok(schemas.fields) else Err(UnexpectedError)
  }

  /** `spec.get("paths", {}).items()`: a `paths` that is not a dict raises AttributeError. */
  function PathsOf(spec: Json): (r: Result<seq<(string, Json)>, Failure>)
    requires spec.JObj?
    ensures r.Err? <==> HasKey(spec, "paths") && !Field(spec, "paths").JObj?
    ensures r.Err? ==> r.error == UnexpectedError
    ensures r.Ok? && HasKey(spec, "paths") ==> r.value == Field(spec, "paths").fields
    ensures !HasKey(spec, "paths") ==> r == Ok([])
  {
    var paths := GetOr(spec.fields, "paths", JObj([]));
    if paths.JObj? then Ok(paths.fields) else Err(UnexpectedError)
  }

  /** The two component passes, from empty caches, in a contract with no rows yet. */
  function Passes(t1: Tables, c: nat, comps: seq<(string, Json)>): (r: Result<St, Failure>)
    ensures r.Ok? ==> r.value.t.contracts == t1.contracts && r.value.t.nextContract == t1.nextContract
                      && r.value.t.endpoints == t1.endpoints
  {
    Pass2(Pass1(St(t1, map[], map[]), c, comps), comps)
  }

  /** The projection of `paths`, once the component passes are done. */
  function Project(s: St, c: nat, spec: Json): (r: Result<St, Failure>)
    requires spec.JObj?
    ensures PathsOf(spec).Err? ==> r == Err(UnexpectedError)
    ensures PathsOf(spec).Ok? ==> r == Paths(s, c, PathsOf(spec).value)
    ensures r.Ok? ==> r.value.t.contracts == s.t.contracts && r.value.t.nextContract == s.t.nextContract
  {
    match PathsOf(spec)
    case Err(f) => Err(f)
    case Ok(entries) => Paths(s, c, entries)
  }

  /** Everything after the contract row: the component passes, then `paths`. */
  function Build(t1: Tables, c: nat, spec: Json): (r: Result<St, Failure>)
    requires spec.JObj?
    ensures r.Ok? ==> && ComponentsOf(spec).Ok? && PathsOf(spec).Ok?
                      && r.value.t.contracts == t1.contracts && r.value.t.nextContract == t1.nextContract
  {
    match ComponentsOf(spec)
    case Err(f) => Err(f)
    case Ok(comps) =>
      match Passes(t1, c, comps)
      case Err(f) => Err(f)
      case Ok(s2) => Project(s2, c, spec)
  }

  /**
   * The transaction: what the tables hold at `conn.commit()` and the new contract id, or the
   * exception that makes the handler roll back.
   */
  function Ingest(t: Tables, spec: Json, componentId: string, tree: string, raw: string, titleOverride: Option<string>)
    : (r: Result<(Tables, nat), Failure>)
    requires spec.JObj?
    // A saved document adds exactly one contract row, with the next id.
    ensures r.Ok? ==> && ContractOf(spec, componentId, tree, raw, titleOverride).Ok?
                      && r.value.1 == t.nextContract
                      && r.value.0.contracts == t.contracts + [ContractOf(spec, componentId, tree, raw, titleOverride).value.(id := t.nextContract)]
                      && r.value.0.nextContract == t.nextContract + 1
    ensures r.Ok? ==> ComponentsOf(spec).Ok? && PathsOf(spec).Ok?
  {
    match ContractOf(spec, componentId, tree, raw, titleOverride)
    case Err(f) => Err(f)
    case Ok(row) =>
      var (t1, c) := InsertContract(t, row);
      match Build(t1, c, spec)
      case Err(f) => Err(f)
      case Ok(s3) => Ok((s3.t, c))
  }

  /** Pass 2 writes no row and only adds ref paths that reuse ids the cache already had. */
  lemma Pass2KeepsInv(s: St, c: nat, comps: seq<(string, Json)>)
    requires Inv(s, c) && Pass2(s, comps).Ok?
    ensures Inv(Pass2(s, comps).value, c) && Appends(s, Pass2(s, comps).value, c)
  {
    var r := Pass2(s, comps).value;
    forall p | p in r.byRef ensures OfContract(r.t.schemas, r.byRef[p], c) {
      var q :| q in s.byRef && s.byRef[q] == r.byRef[p];
    }
  }

  lemma PassesKeepInv(t1: Tables, c: nat, comps: seq<(string, Json)>)
    requires Inv(St(t1, map[], map[]), c) && Passes(t1, c, comps).Ok?
    ensures Inv(Passes(t1, c, comps).value, c) && Grows(St(t1, map[], map[]), Passes(t1, c, comps).value, c)
  {
    var s0 := St(t1, map[], map[]);
    Pass1KeepsInv(s0, c, comps);
    var s1 := Pass1(s0, c, comps);
    Pass2KeepsInv(s1, c, comps);
    GrowsTrans(s0, s1, Passes(t1, c, comps).value, c);
  }

  /** Inside the transaction, everything after the contract row keeps the invariant and only appends. */
  lemma BuildKeepsInv(t1: Tables, c: nat, spec: Json)
    requires spec.JObj? && Inv(St(t1, map[], map[]), c) && Build(t1, c, spec).Ok?
    ensures Inv(Build(t1, c, spec).value, c) && Grows(St(t1, map[], map[]), Build(t1, c, spec).value, c)
  {
    var comps := ComponentsOf(spec).value;
    PassesKeepInv(t1, c, comps);
    var s2 := Passes(t1, c, comps).value;
    PathsKeepInv(s2, c, PathsOf(spec).value);
    GrowsTrans(St(t1, map[], map[]), s2, Build(t1, c, spec).value, c);
  }

  /** The state pass 1 starts from: the new contract row inserted and both caches empty. */
  lemma FreshContract(t: Tables, row: ContractRow)
    requires Valid(t)
    ensures Inv(St(InsertContract(t, row).0, map[], map[]), InsertContract(t, row).1)
    ensures forall i :: 0 <= i < |t.schemas| ==> t.schemas[i].contractId != InsertContract(t, row).1
  {
  }

  /**
   * A save only appends: the database stays consistent, and every row of an earlier contract
   * (schemas included) is still there, unchanged, after the commit.
   */
  lemma IngestKeepsValid(t: Tables, spec: Json, componentId: string, tree: string, raw: string, titleOverride: Option<string>)
    requires spec.JObj? && Valid(t)
    requires Ingest(t, spec, componentId, tree, raw, titleOverride).Ok?
    ensures var t2 := Ingest(t, spec, componentId, tree, raw, titleOverride).value.0;
      && Valid(t2)
      && t.schemas <= t2.schemas && t.endpoints <= t2.endpoints && t.parameters <= t2.parameters
      && t.requestBodies <= t2.requestBodies && t.responses <= t2.responses
  {
    var row := ContractOf(spec, componentId, tree, raw, titleOverride).value;
    var (t1, c) := InsertContract(t, row);
    FreshContract(t, row);
    BuildKeepsInv(t1, c, spec);
    var t2 := Build(t1, c, spec).value.t;
    assert Extends(t1, t2, c);
    assert forall i :: 0 <= i < |t.schemas| ==> t2.schemas[i] == t.schemas[i];
  }

  /**
   * The endpoint rows a save adds are exactly those its `paths` call for (one per operation,
   * verb upper-cased, in iteration order), and no two of them share (path, verb).
   */
  lemma IngestEndpoints(t: Tables, spec: Json, componentId: string, tree: string, raw: string, titleOverride: Option<string>)
    requires spec.JObj? && Valid(t)
    requires Ingest(t, spec, componentId, tree, raw, titleOverride).Ok?
    ensures var (t2, c) := Ingest(t, spec, componentId, tree, raw, titleOverride).value;
      var rows := PathRows(c, PathsOf(spec).value);
      && t.endpoints <= t2.endpoints
      && Map(EndpointView, t2.endpoints[|t.endpoints|..]) == rows
      && KeysDistinct(rows)
  {
    var row := ContractOf(spec, componentId, tree, raw, titleOverride).value;
    var (t1, c) := InsertContract(t, row);
    var comps := ComponentsOf(spec).value;
    FreshContract(t, row);
    PassesKeepInv(t1, c, comps);
    var s2 := Passes(t1, c, comps).value;
    assert s2.t.endpoints == t.endpoints;
    PathsEndpointsDistinct(s2, c, PathsOf(spec).value);
  }

  /**
   * Two verb keys of one path item that differ only in case violate
   * UNIQUE (contract_id, path, http_verb): the whole save is rolled back.
   */
  lemma RepeatedVerbRollsBack(t: Tables, spec: Json, componentId: string, tree: string, raw: string, titleOverride: Option<string>,
                              k: nat, i: nat, j: nat)
    requires spec.JObj? && Valid(t) && HasKey(spec, "paths")
    requires var paths := Field(spec, "paths");
      && paths.JObj? && k < |paths.fields| && paths.fields[k].1.JObj?
      && i < j < |paths.fields[k].1.fields|
      && IsOperation(paths.fields[k].1.fields[i]) && IsOperation(paths.fields[k].1.fields[j])
      && Upper(paths.fields[k].1.fields[i].0) == Upper(paths.fields[k].1.fields[j].0)
    ensures Ingest(t, spec, componentId, tree, raw, titleOverride).Err?
  {
    if Ingest(t, spec, componentId, tree, raw, titleOverride).Ok? {
      IngestEndpoints(t, spec, componentId, tree, raw, titleOverride);
      RepeatedVerbKeys(t.nextContract, PathsOf(spec).value, k, i, j);
    }
  }

  /** Every row of contract `c` with a ref path is named by its component. */
  ghost predicate NamedRows(rows: seq<SchemaRow>, c: nat, comps: seq<(string, Json)>)
  {
    forall i | 0 <= i < |rows| && rows[i].contractId == c && rows[i].refPath.Some? :: NamedBy(rows[i], comps, |comps|)
  }

  /** Every definition's text sits in a row of contract `c` that has a ref path. */
  ghost predicate DefinitionsStored(rows: seq<SchemaRow>, c: nat, comps: seq<(string, Json)>)
  {
    forall j | 0 <= j < |comps| && IsDefinition(comps[j].1) ::
      exists i :: 0 <= i < |rows| && rows[i].contractId == c && rows[i].content == Canon(comps[j].1) && rows[i].refPath.Some?
  }

  /** Later steps never touch a row with a ref path: pass 1's naming of rows survives. */
  lemma NamedRowsSurvive(rows1: seq<SchemaRow>, rows: seq<SchemaRow>, c: nat, comps: seq<(string, Json)>)
    requires RowsNamed(rows1, c, comps, |comps|) && RefsKept(rows1, rows)
    ensures NamedRows(rows, c, comps)
  {
    forall i | 0 <= i < |rows| && rows[i].contractId == c && rows[i].refPath.Some?
      ensures NamedBy(rows[i], comps, |comps|)
    {
      assert i < |rows1| && rows[i] == rows1[i];
    }
  }

  /** The row each definition's ref path points at after pass 1 is still there, named, at the end. */
  lemma DefinitionsSurvive(s1: St, rows: seq<SchemaRow>, c: nat, comps: seq<(string, Json)>)
    requires RefTargets(s1, c, comps, |comps|) && RowsNamed(s1.t.schemas, c, comps, |comps|)
    requires SchemasExtend(s1.t.schemas, rows, c)
    ensures DefinitionsStored(rows, c, comps)
  {
    var rows1 := s1.t.schemas;
    forall j | 0 <= j < |comps| && IsDefinition(comps[j].1)
      ensures exists i :: 0 <= i < |rows| && rows[i].contractId == c && rows[i].content == Canon(comps[j].1) && rows[i].refPath.Some?
    {
      var id := s1.byRef[ComponentRef(comps[j].0)];
      var i :| 0 <= i < |rows1| && rows1[i].id == id && rows1[i].contractId == c && rows1[i].content == Canon(comps[j].1);
      assert NamedBy(rows1[i], comps, |comps|);
      assert rows[i] == rows1[i];
    }
  }

  /** The component passes and `paths` run in a fresh contract: pass 1's naming reaches the end. */
  lemma BuildNamesComponents(t1: Tables, c: nat, spec: Json)
    requires spec.JObj? && Inv(St(t1, map[], map[]), c) && Build(t1, c, spec).Ok?
    requires DistinctKeys(ComponentsOf(spec).value)
    ensures NamedRows(Build(t1, c, spec).value.t.schemas, c, ComponentsOf(spec).value)
    ensures DefinitionsStored(Build(t1, c, spec).value.t.schemas, c, ComponentsOf(spec).value)
  {
    var comps := ComponentsOf(spec).value;
    var s0 := St(t1, map[], map[]);
    Pass1Builds(s0, c, comps, |comps|);
    assert comps[..|comps|] == comps;
    var s1 := Pass1(s0, c, comps);
    Pass2KeepsInv(s1, c, comps);
    var s2 := Pass2(s1, comps).value;
    PathsKeepInv(s2, c, PathsOf(spec).value);
    var s3 := Paths(s2, c, PathsOf(spec).value).value;
    assert s3 == Build(t1, c, spec).value;
    NamedRowsSurvive(s1.t.schemas, s3.t.schemas, c, comps);
    GrowsTrans(s1, s2, s3, c);
    DefinitionsSurvive(s1, s3.t.schemas, c, comps);
  }

  /**
   * What the component passes leave in the committed schemas of the new contract: every row
   * carrying a ref path is the first definition with its text, under that definition's name
   * and path; and every definition's text sits in such a row.
   */
  lemma IngestNamesComponents(t: Tables, spec: Json, componentId: string, tree: string, raw: string, titleOverride: Option<string>)
    requires spec.JObj? && Valid(t)
    requires Ingest(t, spec, componentId, tree, raw, titleOverride).Ok?
    requires DistinctKeys(ComponentsOf(spec).value)
    ensures var (t2, c) := Ingest(t, spec, componentId, tree, raw, titleOverride).value;
      NamedRows(t2.schemas, c, ComponentsOf(spec).value) && DefinitionsStored(t2.schemas, c, ComponentsOf(spec).value)
  {
    var row := ContractOf(spec, componentId, tree, raw, titleOverride).value;
    var (t1, c) := InsertContract(t, row);
    FreshContract(t, row);
    BuildNamesComponents(t1, c, spec);
  }
}
