/**
 * The six tables `create_tables` declares (openapi_to_sqlite.py), as an in-memory state.
 *
 * Each table is a sequence of rows in insertion order with the AUTOINCREMENT counter that
 * names the next row. Column values the document supplies are kept as the JSON value that
 * was bound; the canonical JSON value stands for the `schema_json` text. The DDL contributes
 * its UNIQUE constraints: (contract_id, schema_json), (contract_id, ref_path) enforced only
 * for non-NULL ref paths, and (contract_id, path, http_verb).
 */
module OpenApiTables {
  import opened Wrappers
  import opened JsonValue

  datatype ContractRow = ContractRow(
    id: nat, componentId: string, openapiVersion: Json, title: Json, version: Json,
    tree: string, rawSpec: string)

  datatype SchemaRow = SchemaRow(
    id: nat, contractId: nat, name: Option<string>, refPath: Option<string>, content: Json)

  datatype EndpointRow = EndpointRow(
    id: nat, contractId: nat, path: string, verb: string,
    operationId: Json, summary: Json, description: Json)

  datatype ParameterRow = ParameterRow(
    id: nat, endpointId: nat, name: Json, location: Json, description: Json,
    required: Json, schemaId: Option<nat>)

  datatype RequestBodyRow = RequestBodyRow(
    id: nat, endpointId: nat, description: Json, required: Json, contentType: string,
    schemaId: Option<nat>)

  datatype ResponseRow = ResponseRow(
    id: nat, endpointId: nat, statusCode: string, description: Json,
    contentType: Option<string>, schemaId: Option<nat>)

  datatype Tables = Tables(
    contracts: seq<ContractRow>, nextContract: nat,
    schemas: seq<SchemaRow>, nextSchema: nat,
    endpoints: seq<EndpointRow>, nextEndpoint: nat,
    parameters: seq<ParameterRow>, nextParameter: nat,
    requestBodies: seq<RequestBodyRow>, nextRequestBody: nat,
    responses: seq<ResponseRow>, nextResponse: nat)

  /** A freshly created database: empty tables, every counter at 1. */
  function EmptyTables(): (t: Tables)
    ensures Valid(t)
  {
    Tables([], 1, [], 1, [], 1, [], 1, [], 1, [], 1)
  }

  /**
   * The exception handler that catches a failure inside the transaction. Constraint
   * violations and parameters of an unsupported type are sqlite3 errors; everything else
   * (an attribute missing on a non-dict, a bad `+`, an unhashable key, an integer too wide
   * for SQLite) is an unexpected error. Either way the transaction is rolled back.
   */
  datatype Failure = SqliteError | UnexpectedError

  /** The exception raised by binding one unsupported value. */
  function BindError(v: Json): Failure
  {
    if v.JNum? then UnexpectedError else SqliteError
  }

  /**
   * What binding these statement parameters, in order, raises: a list or dict is an
   * unsupported type, an integer outside 64 bits overflows; the first bad one decides.
   */
  function BindFailure(values: seq<Json>): (r: Option<Failure>)
    ensures r.None? <==> forall i :: 0 <= i < |values| ==> Bindable(values[i])
    ensures r.Some? ==> exists i :: 0 <= i < |values| && !Bindable(values[i]) && r.value == BindError(values[i])
  {
    if |values| == 0 then None
    else if !Bindable(values[0]) then Some(BindError(values[0]))
    else
      var r := BindFailure(values[1..]);
      assert forall i :: 1 <= i < |values| ==> values[i] == values[1..][i - 1];
      r
  }

  /** Row ids are distinct and below the table's AUTOINCREMENT counter. */
  ghost predicate ContractIdsOk(rows: seq<ContractRow>, next: nat)
  {
    && (forall i, j :: 0 <= i < j < |rows| ==> rows[i].id != rows[j].id)
    && (forall i :: 0 <= i < |rows| ==> rows[i].id < next)
  }

  ghost predicate SchemaIdsOk(rows: seq<SchemaRow>, next: nat)
  {
    && (forall i, j :: 0 <= i < j < |rows| ==> rows[i].id != rows[j].id)
    && (forall i :: 0 <= i < |rows| ==> rows[i].id < next)
  }

  ghost predicate EndpointIdsOk(rows: seq<EndpointRow>, next: nat)
  {
    && (forall i, j :: 0 <= i < j < |rows| ==> rows[i].id != rows[j].id)
    && (forall i :: 0 <= i < |rows| ==> rows[i].id < next)
  }

  ghost predicate ParameterIdsOk(rows: seq<ParameterRow>, next: nat)
  {
    && (forall i, j :: 0 <= i < j < |rows| ==> rows[i].id != rows[j].id)
    && (forall i :: 0 <= i < |rows| ==> rows[i].id < next)
  }

  ghost predicate RequestBodyIdsOk(rows: seq<RequestBodyRow>, next: nat)
  {
    && (forall i, j :: 0 <= i < j < |rows| ==> rows[i].id != rows[j].id)
    && (forall i :: 0 <= i < |rows| ==> rows[i].id < next)
  }

  ghost predicate ResponseIdsOk(rows: seq<ResponseRow>, next: nat)
  {
    && (forall i, j :: 0 <= i < j < |rows| ==> rows[i].id != rows[j].id)
    && (forall i :: 0 <= i < |rows| ==> rows[i].id < next)
  }

  /** UNIQUE (contract_id, schema_json) and UNIQUE (contract_id, ref_path) for non-NULL paths. */
  ghost predicate SchemaKeysUnique(rows: seq<SchemaRow>)
  {
    forall i, j :: 0 <= i < j < |rows| && rows[i].contractId == rows[j].contractId ==>
      rows[i].content != rows[j].content
      && (rows[i].refPath.Some? ==> rows[i].refPath != rows[j].refPath)
  }

  /** UNIQUE (contract_id, path, http_verb). */
  ghost predicate EndpointKeysUnique(rows: seq<EndpointRow>)
  {
    forall i, j :: 0 <= i < j < |rows| ==>
      (rows[i].contractId, rows[i].path, rows[i].verb) != (rows[j].contractId, rows[j].path, rows[j].verb)
  }

  /**
   * A state the ingestion can be started from and leaves behind: primary keys and UNIQUE
   * constraints hold, and every schema and endpoint row belongs to a contract id already
   * handed out.
   */
  ghost predicate Valid(t: Tables)
  {
    && ContractIdsOk(t.contracts, t.nextContract)
    && SchemaIdsOk(t.schemas, t.nextSchema)
    && EndpointIdsOk(t.endpoints, t.nextEndpoint)
    && ParameterIdsOk(t.parameters, t.nextParameter)
    && RequestBodyIdsOk(t.requestBodies, t.nextRequestBody)
    && ResponseIdsOk(t.responses, t.nextResponse)
    && SchemaKeysUnique(t.schemas)
    && EndpointKeysUnique(t.endpoints)
    && (forall i :: 0 <= i < |t.schemas| ==> t.schemas[i].contractId < t.nextContract)
    && (forall i :: 0 <= i < |t.endpoints| ==> t.endpoints[i].contractId < t.nextContract)
  }

  /** INSERT INTO api_contracts: the new row takes the next id. */
  function InsertContract(t: Tables, row: ContractRow): (r: (Tables, nat))
    ensures r.1 == t.nextContract
    ensures r.0 == t.(contracts := t.contracts + [row.(id := t.nextContract)], nextContract := t.nextContract + 1)
    ensures Valid(t) ==> Valid(r.0)
    ensures Valid(t) ==> forall i :: 0 <= i < |t.schemas| ==> t.schemas[i].contractId < r.1
  {
    var t' := t.(contracts := t.contracts + [row.(id := t.nextContract)], nextContract := t.nextContract + 1);
    assert Valid(t) ==> Valid(t') by {
      if Valid(t) {
        assert ContractIdsOk(t'.contracts, t'.nextContract);
      }
    }
    (t', t.nextContract)
  }

  /** No row of this contract holds this schema text. */
  predicate ContentFree(rows: seq<SchemaRow>, contract: nat, content: Json)
  {
    forall i | 0 <= i < |rows| :: rows[i].contractId == contract ==> rows[i].content != content
  }

  /** No row of this contract holds this ref path. */
  predicate RefFree(rows: seq<SchemaRow>, contract: nat, ref: string)
  {
    forall i | 0 <= i < |rows| :: rows[i].contractId == contract ==> rows[i].refPath != Some(ref)
  }

  /**
   * INSERT INTO api_data_schemas: None when one of the table's UNIQUE constraints rejects
   * the row (sqlite3.IntegrityError), otherwise the new table and the new row's id.
   */
  function InsertSchema(t: Tables, contract: nat, name: Option<string>, ref: Option<string>, content: Json)
    : (r: Option<(Tables, nat)>)
    ensures r.None? <==> !ContentFree(t.schemas, contract, content) || (ref.Some? && !RefFree(t.schemas, contract, ref.value))
    ensures r.Some? ==> (r.value.1 == t.nextSchema
                         && r.value.0 == t.(schemas := t.schemas + [SchemaRow(r.value.1, contract, name, ref, content)], nextSchema := t.nextSchema + 1))
    ensures r.Some? && Valid(t) && contract < t.nextContract ==> Valid(r.value.0)
  {
    if !ContentFree(t.schemas, contract, content) || (ref.Some? && !RefFree(t.schemas, contract, ref.value)) then None
    else
      var row := SchemaRow(t.nextSchema, contract, name, ref, content);
      var t' := t.(schemas := t.schemas + [row], nextSchema := t.nextSchema + 1);
      assert Valid(t) && contract < t.nextContract ==> Valid(t') by {
        if Valid(t) && contract < t.nextContract {
          assert SchemaIdsOk(t'.schemas, t'.nextSchema);
          assert SchemaKeysUnique(t'.schemas) by {
            forall i, j | 0 <= i < j < |t'.schemas| && t'.schemas[i].contractId == t'.schemas[j].contractId
              ensures t'.schemas[i].content != t'.schemas[j].content
              ensures t'.schemas[i].refPath.Some? ==> t'.schemas[i].refPath != t'.schemas[j].refPath
            {
              if j < |t.schemas| {
                assert t'.schemas[i] == t.schemas[i] && t'.schemas[j] == t.schemas[j];
              }
            }
          }
        }
      }
      Some((t', t.nextSchema))
  }

  /** SELECT ... FROM api_data_schemas WHERE id = ?: the position of the row with that id. */
  function SchemaIndex(rows: seq<SchemaRow>, id: nat): (r: Option<nat>)
    ensures r.Some? ==> r.value < |rows| && rows[r.value].id == id
    ensures r.Some? ==> forall j :: 0 <= j < r.value ==> rows[j].id != id
    ensures r.None? <==> forall j :: 0 <= j < |rows| ==> rows[j].id != id
  {
    if |rows| == 0 then None
    else if rows[0].id == id then Some(0)
    else match SchemaIndex(rows[1..], id)
      case None => None
      case Some(k) => Some(k + 1)
  }

  /** SELECT id FROM api_data_schemas WHERE contract_id = ? AND schema_json = ?. */
  function ContentIndex(rows: seq<SchemaRow>, contract: nat, content: Json): (r: Option<nat>)
    ensures r.Some? ==> r.value < |rows| && rows[r.value].contractId == contract && rows[r.value].content == content
    ensures r.None? <==> ContentFree(rows, contract, content)
  {
    if |rows| == 0 then None
    else if rows[0].contractId == contract && rows[0].content == content then Some(0)
    else match ContentIndex(rows[1..], contract, content)
      case None =>
        assert forall i | 1 <= i < |rows| :: rows[i] == rows[1..][i - 1];
        None
      case Some(k) => Some(k + 1)
  }

  /** Python truthiness of an optional string argument. */
  predicate Given(s: Option<string>)
  {
    s.Some? && |s.value| > 0
  }

  /**
   * The claim step of `_store_schema_definition_and_get_id`: when a component ref path is
   * given and the row with id `id` is anonymous (NULL ref_path), UPDATE its name and ref
   * path. The UPDATE is skipped, with a warning, when UNIQUE (contract_id, ref_path) rejects
   * it; a row that already has a ref path is left alone.
   */
  function Claim(t: Tables, id: nat, name: Option<string>, ref: Option<string>): (r: Tables)
    ensures r == t.(schemas := r.schemas) && |r.schemas| == |t.schemas|
    ensures forall i :: 0 <= i < |t.schemas| ==>
      && r.schemas[i].id == t.schemas[i].id
      && r.schemas[i].contractId == t.schemas[i].contractId
      && r.schemas[i].content == t.schemas[i].content
    // A changed row took exactly the supplied name and ref path.
    ensures forall i :: 0 <= i < |t.schemas| && r.schemas[i] != t.schemas[i] ==>
      r.schemas[i] == t.schemas[i].(name := name, refPath := ref)
    // A row that is not the target, or that already has a ref path, is never changed.
    ensures forall i :: 0 <= i < |t.schemas| && (t.schemas[i].id != id || t.schemas[i].refPath.Some?) ==>
      r.schemas[i] == t.schemas[i]
    // An anonymous target takes the name and ref path, unless another row of its contract holds that path.
    ensures forall i :: 0 <= i < |t.schemas| && t.schemas[i].id == id && SchemaIndex(t.schemas, id) == Some(i) ==>
      r.schemas[i] == (if Given(ref) && t.schemas[i].refPath.None? && RefFree(t.schemas, t.schemas[i].contractId, ref.value)
                       then t.schemas[i].(name := name, refPath := ref) else t.schemas[i])
    ensures Valid(t) ==> Valid(r)
  {
    if !Given(ref) then t
    else match SchemaIndex(t.schemas, id)
      case None => t
      case Some(k) =>
        var row := t.schemas[k];
        if row.refPath.Some? || !RefFree(t.schemas, row.contractId, ref.value) then t
        else
          var r := t.(schemas := t.schemas[k := row.(name := name, refPath := ref)]);
          assert Valid(t) ==> Valid(r) by {
            if Valid(t) {
              assert SchemaIdsOk(r.schemas, r.nextSchema);
              assert SchemaKeysUnique(r.schemas) by {
                forall i, j | 0 <= i < j < |r.schemas| && r.schemas[i].contractId == r.schemas[j].contractId
                  ensures r.schemas[i].content != r.schemas[j].content
                  ensures r.schemas[i].refPath.Some? ==> r.schemas[i].refPath != r.schemas[j].refPath
                {
                  if i != k && j != k {
                    assert r.schemas[i] == t.schemas[i] && r.schemas[j] == t.schemas[j];
                  }
                }
              }
            }
          }
          r
  }

  /** No endpoint of this contract has this path and verb. */
  predicate EndpointFree(rows: seq<EndpointRow>, contract: nat, path: string, verb: string)
  {
    forall i | 0 <= i < |rows| :: (rows[i].contractId, rows[i].path, rows[i].verb) != (contract, path, verb)
  }

  /**
   * INSERT INTO api_endpoints: an IntegrityError (a sqlite3 error) when UNIQUE (contract_id,
   * path, http_verb) rejects the row, otherwise the new table and the new row's id.
   */
  function InsertEndpoint(t: Tables, row: EndpointRow): (r: Result<(Tables, nat), Failure>)
    ensures r.Err? <==> !EndpointFree(t.endpoints, row.contractId, row.path, row.verb)
    ensures r.Err? ==> r.error == SqliteError
    ensures r.Ok? ==> (r.value.1 == t.nextEndpoint
                       && r.value.0 == t.(endpoints := t.endpoints + [row.(id := t.nextEndpoint)], nextEndpoint := t.nextEndpoint + 1))
    ensures r.Ok? && Valid(t) && row.contractId < t.nextContract ==> Valid(r.value.0)
  {
    if !EndpointFree(t.endpoints, row.contractId, row.path, row.verb) then Err(SqliteError)
    else
      var t' := t.(endpoints := t.endpoints + [row.(id := t.nextEndpoint)], nextEndpoint := t.nextEndpoint + 1);
      assert Valid(t) && row.contractId < t.nextContract ==> Valid(t') by {
        if Valid(t) && row.contractId < t.nextContract {
          assert EndpointIdsOk(t'.endpoints, t'.nextEndpoint);
          assert EndpointKeysUnique(t'.endpoints) by {
            forall i, j | 0 <= i < j < |t'.endpoints|
              ensures (t'.endpoints[i].contractId, t'.endpoints[i].path, t'.endpoints[i].verb)
                != (t'.endpoints[j].contractId, t'.endpoints[j].path, t'.endpoints[j].verb)
            {
              if j < |t.endpoints| {
                assert t'.endpoints[i] == t.endpoints[i] && t'.endpoints[j] == t.endpoints[j];
              }
            }
          }
        }
      }
      Ok((t', t.nextEndpoint))
  }

  /** INSERT INTO api_parameters (no constraint beyond binding, checked by the caller). */
  function InsertParameter(t: Tables, row: ParameterRow): (r: Tables)
    ensures r == t.(parameters := t.parameters + [row.(id := t.nextParameter)], nextParameter := t.nextParameter + 1)
    ensures Valid(t) ==> Valid(r)
  {
    var r := t.(parameters := t.parameters + [row.(id := t.nextParameter)], nextParameter := t.nextParameter + 1);
    assert Valid(t) ==> ParameterIdsOk(r.parameters, r.nextParameter);
    r
  }

  /** INSERT INTO api_request_bodies. */
  function InsertRequestBody(t: Tables, row: RequestBodyRow): (r: Tables)
    ensures r == t.(requestBodies := t.requestBodies + [row.(id := t.nextRequestBody)], nextRequestBody := t.nextRequestBody + 1)
    ensures Valid(t) ==> Valid(r)
  {
    var r := t.(requestBodies := t.requestBodies + [row.(id := t.nextRequestBody)], nextRequestBody := t.nextRequestBody + 1);
    assert Valid(t) ==> RequestBodyIdsOk(r.requestBodies, r.nextRequestBody);
    r
  }

  /** INSERT INTO api_responses. */
  function InsertResponse(t: Tables, row: ResponseRow): (r: Tables)
    ensures r == t.(responses := t.responses + [row.(id := t.nextResponse)], nextResponse := t.nextResponse + 1)
    ensures Valid(t) ==> Valid(r)
  {
    var r := t.(responses := t.responses + [row.(id := t.nextResponse)], nextResponse := t.nextResponse + 1);
    assert Valid(t) ==> ResponseIdsOk(r.responses, r.nextResponse);
    r
  }
}
