/**
 * save_openapi_spec_to_sqlite (openapi_to_sqlite.py) as the source runs it: an open
 * transaction whose working tables and two caches are updated in place by nested loops over
 * the components, the paths, their operations, parameters, request-body content and
 * responses. Each loop is proved to compute the fold that specifies it; the database commits
 * the working tables on success and keeps its committed tables on any exception.
 */
module OpenApiTransaction {
  import opened Wrappers
  import opened Strs
  import opened JsonValue
  import opened SchemaJson
  import opened OpenApiTables
  import opened OpenApiStore
  import opened OpenApiPasses
  import opened OpenApiPaths
  import opened OpenApiIngest

  // ---------------------------------------------------------------- the loops stop at an exception

  lemma {:induction false} ParamsStop(s: St, c: nat, e: nat, items: seq<Json>, k: nat)
    requires k <= |items| && Params(s, c, e, items[..k]).Err?
    ensures Params(s, c, e, items) == Params(s, c, e, items[..k])
    decreases |items|
  {
    if k < |items| {
      assert items[..|items| - 1][..k] == items[..k];
      ParamsStop(s, c, e, items[..|items| - 1], k);
    } else {
      assert items[..k] == items;
    }
  }

  lemma {:induction false} BodiesStop(s: St, c: nat, e: nat, desc: Json, req: Json, medias: seq<(string, Json)>, k: nat)
    requires k <= |medias| && Bodies(s, c, e, desc, req, medias[..k]).Err?
    ensures Bodies(s, c, e, desc, req, medias) == Bodies(s, c, e, desc, req, medias[..k])
    decreases |medias|
  {
    if k < |medias| {
      assert medias[..|medias| - 1][..k] == medias[..k];
      BodiesStop(s, c, e, desc, req, medias[..|medias| - 1], k);
    } else {
      assert medias[..k] == medias;
    }
  }

  lemma {:induction false} MediasStop(s: St, c: nat, e: nat, code: string, desc: Json, medias: seq<(string, Json)>, k: nat)
    requires k <= |medias| && Medias(s, c, e, code, desc, medias[..k]).Err?
    ensures Medias(s, c, e, code, desc, medias) == Medias(s, c, e, code, desc, medias[..k])
    decreases |medias|
  {
    if k < |medias| {
      assert medias[..|medias| - 1][..k] == medias[..k];
      MediasStop(s, c, e, code, desc, medias[..|medias| - 1], k);
    } else {
      assert medias[..k] == medias;
    }
  }

  lemma {:induction false} ResponsesStop(s: St, c: nat, e: nat, resps: seq<(string, Json)>, k: nat)
    requires k <= |resps| && Responses(s, c, e, resps[..k]).Err?
    ensures Responses(s, c, e, resps) == Responses(s, c, e, resps[..k])
    decreases |resps|
  {
    if k < |resps| {
      assert resps[..|resps| - 1][..k] == resps[..k];
      ResponsesStop(s, c, e, resps[..|resps| - 1], k);
    } else {
      assert resps[..k] == resps;
    }
  }

  lemma {:induction false} OperationsStop(s: St, c: nat, path: string, item: Json, ops: seq<(string, Json)>, k: nat)
    requires item.JObj? && k <= |ops| && Operations(s, c, path, item, ops[..k]).Err?
    ensures Operations(s, c, path, item, ops) == Operations(s, c, path, item, ops[..k])
    decreases |ops|
  {
    if k < |ops| {
      assert ops[..|ops| - 1][..k] == ops[..k];
      OperationsStop(s, c, path, item, ops[..|ops| - 1], k);
    } else {
      assert ops[..k] == ops;
    }
  }

  lemma {:induction false} PathsStop(s: St, c: nat, entries: seq<(string, Json)>, k: nat)
    requires k <= |entries| && Paths(s, c, entries[..k]).Err?
    ensures Paths(s, c, entries) == Paths(s, c, entries[..k])
    decreases |entries|
  {
    if k < |entries| {
      assert entries[..|entries| - 1][..k] == entries[..k];
      PathsStop(s, c, entries[..|entries| - 1], k);
    } else {
      assert entries[..k] == entries;
    }
  }

  // ---------------------------------------------------------------- one more iteration

  lemma ParamsNext(s: St, c: nat, e: nat, items: seq<Json>, i: nat)
    requires i < |items|
    ensures Params(s, c, e, items[..i + 1]) == match Params(s, c, e, items[..i])
                                               case Err(f) => Err(f)
                                               case Ok(s1) => ParamStep(s1, c, e, items[i])
  {
    assert items[..i + 1][..i] == items[..i];
  }

  lemma BodiesNext(s: St, c: nat, e: nat, desc: Json, req: Json, medias: seq<(string, Json)>, i: nat)
    requires i < |medias|
    ensures Bodies(s, c, e, desc, req, medias[..i + 1]) == match Bodies(s, c, e, desc, req, medias[..i])
                                                          case Err(f) => Err(f)
                                                          case Ok(s1) => BodyStep(s1, c, e, desc, req, medias[i])
  {
    assert medias[..i + 1][..i] == medias[..i];
  }

  lemma MediasNext(s: St, c: nat, e: nat, code: string, desc: Json, medias: seq<(string, Json)>, i: nat)
    requires i < |medias|
    ensures Medias(s, c, e, code, desc, medias[..i + 1]) == match Medias(s, c, e, code, desc, medias[..i])
                                                           case Err(f) => Err(f)
                                                           case Ok(s1) => MediaStep(s1, c, e, code, desc, medias[i])
  {
    assert medias[..i + 1][..i] == medias[..i];
  }

  lemma ResponsesNext(s: St, c: nat, e: nat, resps: seq<(string, Json)>, i: nat)
    requires i < |resps|
    ensures Responses(s, c, e, resps[..i + 1]) == match Responses(s, c, e, resps[..i])
                                                  case Err(f) => Err(f)
                                                  case Ok(s1) => ResponseStep(s1, c, e, resps[i])
  {
    assert resps[..i + 1][..i] == resps[..i];
  }

  lemma OperationsNext(s: St, c: nat, path: string, item: Json, ops: seq<(string, Json)>, i: nat)
    requires item.JObj? && i < |ops|
    ensures Operations(s, c, path, item, ops[..i + 1]) == match Operations(s, c, path, item, ops[..i])
                                                          case Err(f) => Err(f)
                                                          case Ok(s1) => OperationStep(s1, c, path, item, ops[i])
  {
    assert ops[..i + 1][..i] == ops[..i];
  }

  lemma PathsNext(s: St, c: nat, entries: seq<(string, Json)>, i: nat)
    requires i < |entries|
    ensures Paths(s, c, entries[..i + 1]) == match Paths(s, c, entries[..i])
                                             case Err(f) => Err(f)
                                             case Ok(s1) => PathStep(s1, c, entries[i])
  {
    assert entries[..i + 1][..i] == entries[..i];
  }

  lemma Pass2Next(s: St, comps: seq<(string, Json)>, i: nat)
    requires i < |comps|
    ensures Pass2(s, comps[..i + 1]) == match Pass2(s, comps[..i])
                                        case Err(f) => Err(f)
                                        case Ok(s1) => Pass2Step(s1, comps[i])
  {
    assert comps[..i + 1][..i] == comps[..i];
  }

  lemma {:induction false} Pass2Stop(s: St, comps: seq<(string, Json)>, k: nat)
    requires k <= |comps| && Pass2(s, comps[..k]).Err?
    ensures Pass2(s, comps) == Pass2(s, comps[..k])
    decreases |comps|
  {
    if k < |comps| {
      assert comps[..|comps| - 1][..k] == comps[..k];
      Pass2Stop(s, comps[..|comps| - 1], k);
    } else {
      assert comps[..k] == comps;
    }
  }

  // ---------------------------------------------------------------- the open transaction

  /** The cursor's view of the open transaction and the two caches the ingestion threads through it. */
  class Transaction {
    var work: Tables
    var byContent: map<Json, nat>
    var byRef: map<string, nat>

    function State(): St
      reads this
    {
      St(work, byContent, byRef)
    }

    /** The step ended as its specification says: in its state when it succeeded, with its exception when not. */
    predicate Reached(r: Result<St, Failure>, failure: Option<Failure>)
      reads this
    {
      match r
      case Ok(s) => failure.None? && State() == s
      case Err(f) => failure == Some(f)
    }

    /** `BEGIN`: the working tables start as the committed ones, the caches empty. */
    constructor (committed: Tables)
      ensures State() == St(committed, map[], map[])
    {
      work := committed;
      byContent := map[];
      byRef := map[];
    }

    /** _store_schema_definition_and_get_id for a fragment that is present. */
    method Store(c: nat, fragment: Json, name: Option<string>, ref: Option<string>) returns (id: Option<nat>)
      modifies this
      ensures (State(), id) == StoreSchema(old(State()), c, Some(fragment), name, ref)
    {
      var key := Canon(fragment);
      if key in byContent {
        var cached := byContent[key];
        work := Claim(work, cached, name, ref);
        id := Some(cached);
      } else {
        match InsertSchema(work, c, name, ref, key) {
          case Some((t1, inserted)) =>
            work := t1;
            byContent := byContent[key := inserted];
            id := Some(inserted);
          case None =>
            match ContentIndex(work.schemas, c, key) {
              case Some(k) =>
                var existing := work.schemas[k].id;
                work := Claim(work, existing, name, ref);
                byContent := byContent[key := existing];
                id := Some(existing);
              case None =>
                id := None;
            }
        }
      }
    }

    /** The `schema` field of a parameter, request-body content entry or response content entry. */
    method Resolve(c: nat, schema: Json) returns (sid: Option<nat>, failure: Option<Failure>)
      modifies this
      ensures match ResolveSchema(old(State()), c, schema)
              case Ok((s1, id)) => failure.None? && State() == s1 && sid == id
              case Err(f) => failure == Some(f)
    {
      sid, failure := None, None;
      if !schema.JObj? {
        return;
      }
      if HasKey(schema, "$ref") {
        match Field(schema, "$ref") {
          case JStr(target) =>
            if target in byRef {
              sid := Some(byRef[target]);
            }
          case JArr(_) => failure := Some(UnexpectedError);
          case JObj(_) => failure := Some(UnexpectedError);
          case _ =>
        }
      } else {
        sid := Store(c, schema, None, None);
      }
    }

    /** One iteration of pass 1: a definition is stored under its name and ref path. */
    method StoreComponent(c: nat, comp: (string, Json))
      modifies this
      ensures State() == Pass1Step(old(State()), c, comp)
    {
      if IsDefinition(comp.1) {
        var ref := ComponentRef(comp.0);
        var id := Store(c, comp.1, Some(comp.0), Some(ref));
        if id.Some? && ref !in byRef {
          byRef := byRef[ref := id.value];
        }
      }
    }

    /** Pass 1 over the components in iteration order; the first path registered wins. */
    method StoreComponents(c: nat, comps: seq<(string, Json)>)
      modifies this
      ensures State() == Pass1(old(State()), c, comps)
    {
      ghost var s0 := State();
      var i := 0;
      while i < |comps|
        invariant i <= |comps|
        invariant State() == Pass1(s0, c, comps[..i])
      {
        assert comps[..i + 1][..i] == comps[..i];
        StoreComponent(c, comps[i]);
        i := i + 1;
      }
      assert comps[..i] == comps;
    }

    /** One iteration of pass 2: an unregistered alias takes its registered target's id. */
    method ResolveAlias(comp: (string, Json)) returns (failure: Option<Failure>)
      modifies this
      ensures Reached(Pass2Step(old(State()), comp), failure)
    {
      failure := None;
      var ref := ComponentRef(comp.0);
      if comp.1.JObj? && ref !in byRef && HasKey(comp.1, "$ref") {
        match Field(comp.1, "$ref") {
          case JStr(target) =>
            if target in byRef {
              byRef := byRef[ref := byRef[target]];
            }
          case JArr(_) => failure := Some(UnexpectedError);
          case JObj(_) => failure := Some(UnexpectedError);
          case _ =>
        }
      }
    }

    /** Pass 2 over the components in iteration order, stopping at the first exception. */
    method ResolveAliases(comps: seq<(string, Json)>) returns (failure: Option<Failure>)
      modifies this
      ensures Reached(Pass2(old(State()), comps), failure)
    {
      ghost var s0 := State();
      failure := None;
      var i := 0;
      while i < |comps|
        invariant i <= |comps|
        invariant failure.None?
        invariant Pass2(s0, comps[..i]) == Ok(State())
      {
        Pass2Next(s0, comps, i);
        failure := ResolveAlias(comps[i]);
        if failure.Some? {
          Pass2Stop(s0, comps, i + 1);
          return;
        }
        i := i + 1;
      }
      assert comps[..i] == comps;
    }

    /** One entry of the parameter list. */
    method SaveParameter(c: nat, e: nat, p: Json) returns (failure: Option<Failure>)
      modifies this
      ensures Reached(ParamStep(old(State()), c, e, p), failure)
    {
      failure := None;
      if !p.JObj? {
        return;
      }
      var sid;
      sid, failure := Resolve(c, Field(p, "schema"));
      if failure.Some? || !ParamWanted(p) {
        return;
      }
      failure := BindFailure(ParamBinds(p));
      if failure.None? {
        work := InsertParameter(work, ParameterRow(0, e, Field(p, "name"), Field(p, "in"), Field(p, "description"), Required(p), sid));
      }
    }

    method SaveParameters(c: nat, e: nat, items: seq<Json>) returns (failure: Option<Failure>)
      modifies this
      ensures Reached(Params(old(State()), c, e, items), failure)
    {
      ghost var s0 := State();
      failure := None;
      var i := 0;
      while i < |items|
        invariant i <= |items|
        invariant failure.None?
        invariant Params(s0, c, e, items[..i]) == Ok(State())
      {
        ParamsNext(s0, c, e, items, i);
        failure := SaveParameter(c, e, items[i]);
        if failure.Some? {
          ParamsStop(s0, c, e, items, i + 1);
          return;
        }
        i := i + 1;
      }
      assert items[..i] == items;
    }

    /** One entry of `requestBody.content`. */
    method SaveBodyMedia(c: nat, e: nat, desc: Json, req: Json, media: (string, Json)) returns (failure: Option<Failure>)
      modifies this
      ensures Reached(BodyStep(old(State()), c, e, desc, req, media), failure)
    {
      failure := None;
      if !media.1.JObj? {
        return;
      }
      var sid;
      sid, failure := Resolve(c, Field(media.1, "schema"));
      if failure.Some? {
        return;
      }
      failure := BindFailure([desc, req]);
      if failure.None? {
        work := InsertRequestBody(work, RequestBodyRow(0, e, desc, req, media.0, sid));
      }
    }

    method SaveBodyMedias(c: nat, e: nat, desc: Json, req: Json, medias: seq<(string, Json)>) returns (failure: Option<Failure>)
      modifies this
      ensures Reached(Bodies(old(State()), c, e, desc, req, medias), failure)
    {
      ghost var s0 := State();
      failure := None;
      var i := 0;
      while i < |medias|
        invariant i <= |medias|
        invariant failure.None?
        invariant Bodies(s0, c, e, desc, req, medias[..i]) == Ok(State())
      {
        BodiesNext(s0, c, e, desc, req, medias, i);
        failure := SaveBodyMedia(c, e, desc, req, medias[i]);
        if failure.Some? {
          BodiesStop(s0, c, e, desc, req, medias, i + 1);
          return;
        }
        i := i + 1;
      }
      assert medias[..i] == medias;
    }

    method SaveRequestBody(c: nat, e: nat, o: Json) returns (failure: Option<Failure>)
      modifies this
      ensures Reached(RequestBody(old(State()), c, e, o), failure)
    {
      failure := None;
      if HasBodyContent(o) {
        var rb := Field(o, "requestBody");
        failure := SaveBodyMedias(c, e, Field(rb, "description"), BodyRequired(o), Field(rb, "content").fields);
      }
    }

    /** One entry of a response's `content`. */
    method SaveResponseMedia(c: nat, e: nat, code: string, desc: Json, media: (string, Json)) returns (failure: Option<Failure>)
      modifies this
      ensures Reached(MediaStep(old(State()), c, e, code, desc, media), failure)
    {
      failure := None;
      if !media.1.JObj? {
        return;
      }
      var sid;
      sid, failure := Resolve(c, Field(media.1, "schema"));
      if failure.Some? {
        return;
      }
      failure := BindFailure([desc]);
      if failure.None? {
        work := InsertResponse(work, ResponseRow(0, e, code, desc, Some(media.0), sid));
      }
    }

    method SaveResponseMedias(c: nat, e: nat, code: string, desc: Json, medias: seq<(string, Json)>) returns (failure: Option<Failure>)
      modifies this
      ensures Reached(Medias(old(State()), c, e, code, desc, medias), failure)
    {
      ghost var s0 := State();
      failure := None;
      var i := 0;
      while i < |medias|
        invariant i <= |medias|
        invariant failure.None?
        invariant Medias(s0, c, e, code, desc, medias[..i]) == Ok(State())
      {
        MediasNext(s0, c, e, code, desc, medias, i);
        failure := SaveResponseMedia(c, e, code, desc, medias[i]);
        if failure.Some? {
          MediasStop(s0, c, e, code, desc, medias, i + 1);
          return;
        }
        i := i + 1;
      }
      assert medias[..i] == medias;
    }

    /** One entry of `responses`: its media entries, or one row without a content type. */
    method SaveResponse(c: nat, e: nat, resp: (string, Json)) returns (failure: Option<Failure>)
      modifies this
      ensures Reached(ResponseStep(old(State()), c, e, resp), failure)
    {
      failure := None;
      if !resp.1.JObj? {
        return;
      }
      var desc, content := Field(resp.1, "description"), Field(resp.1, "content");
      if content.JObj? {
        failure := SaveResponseMedias(c, e, resp.0, desc, content.fields);
      } else {
        failure := BindFailure([desc]);
        if failure.None? {
          work := InsertResponse(work, ResponseRow(0, e, resp.0, desc, None, None));
        }
      }
    }

    method SaveResponses(c: nat, e: nat, resps: seq<(string, Json)>) returns (failure: Option<Failure>)
      modifies this
      ensures Reached(Responses(old(State()), c, e, resps), failure)
    {
      ghost var s0 := State();
      failure := None;
      var i := 0;
      while i < |resps|
        invariant i <= |resps|
        invariant failure.None?
        invariant Responses(s0, c, e, resps[..i]) == Ok(State())
      {
        ResponsesNext(s0, c, e, resps, i);
        failure := SaveResponse(c, e, resps[i]);
        if failure.Some? {
          ResponsesStop(s0, c, e, resps, i + 1);
          return;
        }
        i := i + 1;
      }
      assert resps[..i] == resps;
    }

    /** An operation's parameters, request body and responses, against its new endpoint id. */
    method SaveEndpointChildren(c: nat, e: nat, item: Json, o: Json) returns (failure: Option<Failure>)
      requires item.JObj? && o.JObj?
      modifies this
      ensures Reached(EndpointChildren(old(State()), c, e, item, o), failure)
    {
      match ParamItems(o, item) {
        case Err(f) =>
          failure := Some(f);
        case Ok(items) =>
          failure := SaveParameters(c, e, items);
          if failure.None? {
            failure := SaveRequestBody(c, e, o);
            if failure.None? && Field(o, "responses").JObj? {
              failure := SaveResponses(c, e, Field(o, "responses").fields);
            }
          }
      }
    }

    /** One entry of a path item: an operation gets its endpoint row, then its children. */
    method SaveOperation(c: nat, path: string, item: Json, op: (string, Json)) returns (failure: Option<Failure>)
      requires item.JObj?
      modifies this
      ensures Reached(OperationStep(old(State()), c, path, item, op), failure)
    {
      failure := None;
      if !IsOperation(op) {
        return;
      }
      var o := op.1;
      failure := BindFailure(EndpointBinds(o));
      if failure.Some? {
        return;
      }
      var row := EndpointRow(0, c, path, Upper(op.0), Field(o, "operationId"), Field(o, "summary"), Field(o, "description"));
      match InsertEndpoint(work, row) {
        case Err(f) =>
          failure := Some(f);
        case Ok((t1, e)) =>
          work := t1;
          failure := SaveEndpointChildren(c, e, item, o);
      }
    }

    method SaveOperations(c: nat, path: string, item: Json, ops: seq<(string, Json)>) returns (failure: Option<Failure>)
      requires item.JObj?
      modifies this
      ensures Reached(Operations(old(State()), c, path, item, ops), failure)
    {
      ghost var s0 := State();
      failure := None;
      var i := 0;
      while i < |ops|
        invariant i <= |ops|
        invariant failure.None?
        invariant Operations(s0, c, path, item, ops[..i]) == Ok(State())
      {
        OperationsNext(s0, c, path, item, ops, i);
        failure := SaveOperation(c, path, item, ops[i]);
        if failure.Some? {
          OperationsStop(s0, c, path, item, ops, i + 1);
          return;
        }
        i := i + 1;
      }
      assert ops[..i] == ops;
    }

    /** The loop over `paths`: a path item that is not a dict is skipped. */
    method SavePaths(c: nat, entries: seq<(string, Json)>) returns (failure: Option<Failure>)
      modifies this
      ensures Reached(Paths(old(State()), c, entries), failure)
    {
      ghost var s0 := State();
      failure := None;
      var i := 0;
      while i < |entries|
        invariant i <= |entries|
        invariant failure.None?
        invariant Paths(s0, c, entries[..i]) == Ok(State())
      {
        PathsNext(s0, c, entries, i);
        var (path, item) := entries[i];
        if item.JObj? {
          failure := SaveOperations(c, path, item, item.fields);
          if failure.Some? {
            PathsStop(s0, c, entries, i + 1);
            return;
          }
        }
        i := i + 1;
      }
      assert entries[..i] == entries;
    }

    /**
     * The body of the `try`: the contract row, the two component passes from empty caches,
     * then `paths`. On success the working tables are what Ingest specifies.
     */
    method Run(spec: Json, componentId: string, tree: string, raw: string, titleOverride: Option<string>)
      returns (r: Result<nat, Failure>)
      requires spec.JObj?
      modifies this
      ensures match Ingest(old(work), spec, componentId, tree, raw, titleOverride)
              case Ok((t2, c)) => r == Ok(c) && work == t2
              case Err(f) => r == Err(f)
    {
      byContent, byRef := map[], map[];
      match ContractOf(spec, componentId, tree, raw, titleOverride) {
        case Err(f) =>
          return Err(f);
        case Ok(row) =>
          var (t1, c) := InsertContract(work, row);
          work := t1;
          match ComponentsOf(spec) {
            case Err(f) =>
              return Err(f);
            case Ok(comps) =>
              StoreComponents(c, comps);
              var failure := ResolveAliases(comps);
              if failure.Some? {
                return Err(failure.value);
              }
              match PathsOf(spec) {
                case Err(f) =>
                  return Err(f);
                case Ok(entries) =>
                  failure := SavePaths(c, entries);
                  if failure.Some? {
                    return Err(failure.value);
                  }
                  return Ok(c);
              }
          }
      }
    }
  }

  // ---------------------------------------------------------------- the database file

  /** What save_openapi_spec_to_sqlite reports, without the message text. */
  datatype SaveOutcome = Saved(contractId: nat) | NotADictionary | SqliteFailure | UnexpectedFailure

  /** The `sqlite3.Error` handler and the generic handler both roll back. */
  function OutcomeOf(r: Result<(Tables, nat), Failure>): (o: SaveOutcome)
    ensures o.Saved? <==> r.Ok?
    ensures r.Ok? ==> o == Saved(r.value.1)
    ensures r.Err? ==> (o == SqliteFailure <==> r.error == SqliteError)
  {
    match r
    case Ok((_, c)) => Saved(c)
    case Err(SqliteError) => SqliteFailure
    case Err(UnexpectedError) => UnexpectedFailure
  }

  /** The SQLite database file: what other connections see is the committed tables. */
  class Database {
    var committed: Tables

    ghost predicate Consistent()
      reads this
    {
      Valid(committed)
    }

    /** A new database after create_tables: every table empty. */
    constructor ()
      ensures committed == EmptyTables() && Consistent()
    {
      committed := EmptyTables();
    }

    /**
     * save_openapi_spec_to_sqlite on an already parsed document: a document that is not a
     * dict is refused before connecting; otherwise the transaction commits everything or,
     * on any exception, nothing.
     */
    method Save(spec: Json, componentId: string, tree: string, raw: string, titleOverride: Option<string>)
      returns (outcome: SaveOutcome)
      requires Consistent()
      modifies this
      ensures Consistent()
      ensures !spec.JObj? ==> outcome == NotADictionary
      ensures spec.JObj? ==> outcome == OutcomeOf(Ingest(old(committed), spec, componentId, tree, raw, titleOverride))
      ensures outcome.Saved? ==> committed == Ingest(old(committed), spec, componentId, tree, raw, titleOverride).value.0
      ensures !outcome.Saved? ==> committed == old(committed)
    {
      if !spec.JObj? {
        return NotADictionary;
      }
      var tx := new Transaction(committed);
      var r := tx.Run(spec, componentId, tree, raw, titleOverride);
      match r {
        case Ok(c) =>
          IngestKeepsValid(committed, spec, componentId, tree, raw, titleOverride);
          committed := tx.work;
          outcome := Saved(c);
        case Err(f) =>
          outcome := if f == SqliteError then SqliteFailure else UnexpectedFailure;
      }
    }
  }
}
