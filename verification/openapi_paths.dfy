/**
 * The projection of `paths` in save_openapi_spec_to_sqlite (openapi_to_sqlite.py): one endpoint
 * row per operation, then its parameter, request-body and response rows, each `schema` field
 * resolved through the store. Every function is one loop of the source as a fold over the
 * items in iteration order, stopping at the first exception.
 */
module OpenApiPaths {
  import opened Wrappers
  import opened Strs
  import opened Seqs
  import opened JsonValue
  import opened SchemaJson
  import opened OpenApiTables
  import opened OpenApiStore

  // ---------------------------------------------------------------- parameters

  /**
   * `operation.get("parameters", []) + path_item.get("parameters", [])`: two lists
   * concatenate; two strings concatenate and iterate as one-character strings; any other
   * pair raises TypeError, at the `+` or when the sum is iterated.
   */
  function ParamItems(op: Json, item: Json): (r: Result<seq<Json>, Failure>)
    requires op.JObj? && item.JObj?
    ensures r.Err? ==> r.error == UnexpectedError
    ensures var a, b := GetOr(op.fields, "parameters", JArr([])), GetOr(item.fields, "parameters", JArr([]));
      && (r.Ok? <==> (a.JArr? && b.JArr?) || (a.JStr? && b.JStr?))
      && (a.JArr? && b.JArr? ==> r == Ok(a.items + b.items))
      && (r.Ok? && a.JStr? ==> forall i :: 0 <= i < |r.value| ==> !r.value[i].JObj?)
  {
    match (GetOr(op.fields, "parameters", JArr([])), GetOr(item.fields, "parameters", JArr([])))
    case (JArr(x), JArr(y)) => Ok(x + y)
    case (JStr(x), JStr(y)) => Ok(seq(|x + y|, i requires 0 <= i < |x + y| => JStr([(x + y)[i]])))
    case _ => Err(UnexpectedError)
  }

  /** `param_obj.get("required", False)`. */
  function Required(p: Json): Json
    requires p.JObj?
  {
    GetOr(p.fields, "required", JBool(false))
  }

  /** A parameter gets a row only when `name` and `in` are both truthy. */
  predicate ParamWanted(p: Json)
  {
    p.JObj? && Truthy(Field(p, "name")) && Truthy(Field(p, "in"))
  }

  /** The statement parameters the parameter INSERT binds from the document. */
  function ParamBinds(p: Json): seq<Json>
    requires p.JObj?
  {
    [Field(p, "name"), Field(p, "in"), Field(p, "description"), Required(p)]
  }

  /** A dict parameter raises: its schema's `$ref` is unhashable, or a wanted row cannot be bound. */
  predicate ParamBad(p: Json)
  {
    && p.JObj?
    && ((HasKey(Field(p, "schema"), "$ref") && !Hashable(Field(Field(p, "schema"), "$ref")))
        || (ParamWanted(p) && BindFailure(ParamBinds(p)).Some?))
  }

  /** What a parameter row holds apart from its id and schema id. */
  function ParamKey(row: ParameterRow): (nat, Json, Json, Json, Json)
  {
    (row.endpointId, row.name, row.location, row.description, row.required)
  }

  /** The row a parameter contributes to endpoint `e`, if any. */
  function ParamRow(e: nat, p: Json): seq<(nat, Json, Json, Json, Json)>
  {
    if ParamWanted(p) then [(e, Field(p, "name"), Field(p, "in"), Field(p, "description"), Required(p))] else []
  }

  /** The rows the parameters contribute, in order. */
  function ParamRows(e: nat, items: seq<Json>): seq<(nat, Json, Json, Json, Json)>
  {
    if |items| == 0 then [] else ParamRows(e, items[..|items| - 1]) + ParamRow(e, items[|items| - 1])
  }

  /** Only these tables change in the loops below an endpoint. */
  predicate SameEndpoints(s: St, r: St)
  {
    r.t.contracts == s.t.contracts && r.t.nextContract == s.t.nextContract
    && r.t.endpoints == s.t.endpoints && r.t.nextEndpoint == s.t.nextEndpoint
  }

  /**
   * One parameter: a non-dict is skipped; the schema is resolved (and an inline one stored)
   * before the row is considered; the row is inserted only when `name` and `in` are truthy.
   */
  function ParamStep(s: St, c: nat, e: nat, p: Json): (r: Result<St, Failure>)
    ensures r.Err? <==> ParamBad(p)
    ensures !p.JObj? ==> r == Ok(s)
    ensures r.Ok? ==> SameEndpoints(s, r.value) && r.value.byRef == s.byRef && CachesGrow(s, r.value)
    ensures r.Ok? ==> r.value.t.requestBodies == s.t.requestBodies && r.value.t.responses == s.t.responses
    ensures r.Ok? ==> s.t.parameters <= r.value.t.parameters
                      && Map(ParamKey, r.value.t.parameters[|s.t.parameters|..]) == ParamRow(e, p)
  {
    if !p.JObj? then Ok(s)
    else
      match ResolveSchema(s, c, Field(p, "schema"))
      case Err(f) => Err(f)
      case Ok((s1, sid)) =>
        if !ParamWanted(p) then Ok(s1)
        else
          match BindFailure(ParamBinds(p))
          case Some(f) => Err(f)
          case None =>
            var row := ParameterRow(0, e, Field(p, "name"), Field(p, "in"), Field(p, "description"), Required(p), sid);
            var r := s1.(t := InsertParameter(s1.t, row));
            assert r.t.parameters[|s.t.parameters|..] == [row.(id := s1.t.nextParameter)];
            Ok(r)
  }

  /** The loop over the parameters of one operation. */
  function Params(s: St, c: nat, e: nat, items: seq<Json>): (r: Result<St, Failure>)
    decreases |items|
    ensures r.Err? <==> exists i :: 0 <= i < |items| && ParamBad(items[i])
    ensures r.Ok? ==> SameEndpoints(s, r.value) && r.value.byRef == s.byRef && CachesGrow(s, r.value)
    ensures r.Ok? ==> r.value.t.requestBodies == s.t.requestBodies && r.value.t.responses == s.t.responses
    ensures r.Ok? ==> s.t.parameters <= r.value.t.parameters
                      && Map(ParamKey, r.value.t.parameters[|s.t.parameters|..]) == ParamRows(e, items)
  {
    if |items| == 0 then Ok(s)
    else
      var init, last := items[..|items| - 1], items[|items| - 1];
      BadSplit(items, init);
      match Params(s, c, e, init)
      case Err(f) => Err(f)
      case Ok(s1) =>
        var r := ParamStep(s1, c, e, last);
        if r.Ok? then
          ViewStep(ParamKey, s.t.parameters, s1.t.parameters, r.value.t.parameters,
                   Map(ParamKey, s1.t.parameters[|s.t.parameters|..]), Map(ParamKey, r.value.t.parameters[|s1.t.parameters|..]));
          r
        else r
  }

  /** Some parameter is malformed exactly when one before the last is, or the last is. */
  lemma BadSplit(items: seq<Json>, init: seq<Json>)
    requires |items| > 0 && init == items[..|items| - 1]
    ensures (exists i :: 0 <= i < |items| && ParamBad(items[i]))
            <==> (exists i :: 0 <= i < |init| && ParamBad(init[i])) || ParamBad(items[|items| - 1])
  {
    Seqs.ExistsInit(items, init, ParamBad);
  }

  // ---------------------------------------------------------------- request bodies

  /** What a request-body row holds apart from its id and schema id. */
  function BodyKey(row: RequestBodyRow): (nat, Json, Json, string)
  {
    (row.endpointId, row.description, row.required, row.contentType)
  }

  /** A media entry raises: its schema's `$ref` is unhashable, or the row cannot be bound. */
  predicate MediaBad(media: Json, binds: seq<Json>)
  {
    && media.JObj?
    && ((HasKey(Field(media, "schema"), "$ref") && !Hashable(Field(Field(media, "schema"), "$ref")))
        || BindFailure(binds).Some?)
  }

  /** One request-body content entry: a non-dict media object is skipped. */
  function BodyStep(s: St, c: nat, e: nat, desc: Json, req: Json, media: (string, Json)): (r: Result<St, Failure>)
    ensures r.Err? <==> MediaBad(media.1, [desc, req])
    ensures r.Ok? ==> SameEndpoints(s, r.value) && r.value.byRef == s.byRef && CachesGrow(s, r.value)
    ensures r.Ok? ==> r.value.t.parameters == s.t.parameters && r.value.t.responses == s.t.responses
    ensures r.Ok? ==> s.t.requestBodies <= r.value.t.requestBodies
                      && Map(BodyKey, r.value.t.requestBodies[|s.t.requestBodies|..])
                         == (if media.1.JObj? then [(e, desc, req, media.0)] else [])
  {
    if !media.1.JObj? then Ok(s)
    else
      match ResolveSchema(s, c, Field(media.1, "schema"))
      case Err(f) => Err(f)
      case Ok((s1, sid)) =>
        match BindFailure([desc, req])
        case Some(f) => Err(f)
        case None =>
          var row := RequestBodyRow(0, e, desc, req, media.0, sid);
          var r := s1.(t := InsertRequestBody(s1.t, row));
          assert r.t.requestBodies[|s.t.requestBodies|..] == [row.(id := s1.t.nextRequestBody)];
          Ok(r)
  }

  /** The rows the content entries of a request body contribute, in order. */
  function BodyRows(e: nat, desc: Json, req: Json, medias: seq<(string, Json)>): seq<(nat, Json, Json, string)>
  {
    if |medias| == 0 then []
    else
      var m := medias[|medias| - 1];
      BodyRows(e, desc, req, medias[..|medias| - 1]) + (if m.1.JObj? then [(e, desc, req, m.0)] else [])
  }

  /** The loop over `requestBody.content`. */
  function Bodies(s: St, c: nat, e: nat, desc: Json, req: Json, medias: seq<(string, Json)>): (r: Result<St, Failure>)
    decreases |medias|
    ensures r.Err? <==> exists i :: 0 <= i < |medias| && MediaBad(medias[i].1, [desc, req])
    ensures r.Ok? ==> SameEndpoints(s, r.value) && r.value.byRef == s.byRef && CachesGrow(s, r.value)
    ensures r.Ok? ==> r.value.t.parameters == s.t.parameters && r.value.t.responses == s.t.responses
    ensures r.Ok? ==> s.t.requestBodies <= r.value.t.requestBodies
                      && Map(BodyKey, r.value.t.requestBodies[|s.t.requestBodies|..]) == BodyRows(e, desc, req, medias)
  {
    if |medias| == 0 then Ok(s)
    else
      var init, last := medias[..|medias| - 1], medias[|medias| - 1];
      match Bodies(s, c, e, desc, req, init)
      case Err(f) =>
        assert exists i :: 0 <= i < |medias| && MediaBad(medias[i].1, [desc, req]) by {
          var i :| 0 <= i < |init| && MediaBad(init[i].1, [desc, req]);
          assert medias[i] == init[i];
        }
        Err(f)
      case Ok(s1) =>
        var r := BodyStep(s1, c, e, desc, req, last);
        assert r.Err? <==> exists i :: 0 <= i < |medias| && MediaBad(medias[i].1, [desc, req]) by {
          if r.Err? {
            assert MediaBad(medias[|medias| - 1].1, [desc, req]);
          } else {
            forall i | 0 <= i < |medias| ensures !MediaBad(medias[i].1, [desc, req]) {
              if i < |init| {
                assert medias[i] == init[i];
              }
            }
          }
        }
        assert r.Ok? ==> Map(BodyKey, r.value.t.requestBodies[|s.t.requestBodies|..]) == BodyRows(e, desc, req, medias) by {
          if r.Ok? {
            ViewStep(BodyKey, s.t.requestBodies, s1.t.requestBodies, r.value.t.requestBodies, Map(BodyKey, s1.t.requestBodies[|s.t.requestBodies|..]), Map(BodyKey, r.value.t.requestBodies[|s1.t.requestBodies|..]));
          }
        }
        r
  }

  /** The request body has rows only when it and its `content` are both dicts. */
  predicate HasBodyContent(op: Json)
  {
    Field(op, "requestBody").JObj? && Field(Field(op, "requestBody"), "content").JObj?
  }

  /** `rb_obj.get("required", False)`. */
  function BodyRequired(op: Json): Json
  {
    var rb := Field(op, "requestBody");
    if rb.JObj? then GetOr(rb.fields, "required", JBool(false)) else JBool(false)
  }

  /** The request-body branch of one operation. */
  function RequestBody(s: St, c: nat, e: nat, op: Json): (r: Result<St, Failure>)
    ensures !HasBodyContent(op) ==> r == Ok(s)
    ensures HasBodyContent(op) ==> r == Bodies(s, c, e, Field(Field(op, "requestBody"), "description"), BodyRequired(op),
                                                Field(Field(op, "requestBody"), "content").fields)
  {
    if HasBodyContent(op) then
      var rb := Field(op, "requestBody");
      Bodies(s, c, e, Field(rb, "description"), BodyRequired(op), Field(rb, "content").fields)
    else Ok(s)
  }

  // ---------------------------------------------------------------- responses

  /** What a response row holds apart from its id and schema id. */
  function ResponseKey(row: ResponseRow): (nat, string, Json, Option<string>)
  {
    (row.endpointId, row.statusCode, row.description, row.contentType)
  }

  /** A row without a content type has no schema either. */
  predicate NoTypeNoSchema(rows: seq<ResponseRow>, from: nat)
  {
    forall k | from <= k < |rows| :: rows[k].contentType.None? ==> rows[k].schemaId.None?
  }

  /** One media entry of a response's `content`: a non-dict media object is skipped. */
  function MediaStep(s: St, c: nat, e: nat, code: string, desc: Json, media: (string, Json)): (r: Result<St, Failure>)
    ensures r.Err? <==> MediaBad(media.1, [desc])
    ensures r.Ok? ==> SameEndpoints(s, r.value) && r.value.byRef == s.byRef && CachesGrow(s, r.value)
    ensures r.Ok? ==> r.value.t.parameters == s.t.parameters && r.value.t.requestBodies == s.t.requestBodies
    ensures r.Ok? ==> s.t.responses <= r.value.t.responses
                      && Map(ResponseKey, r.value.t.responses[|s.t.responses|..])
                         == (if media.1.JObj? then [(e, code, desc, Some(media.0))] else [])
  {
    if !media.1.JObj? then Ok(s)
    else
      match ResolveSchema(s, c, Field(media.1, "schema"))
      case Err(f) => Err(f)
      case Ok((s1, sid)) =>
        match BindFailure([desc])
        case Some(f) => Err(f)
        case None =>
          var row := ResponseRow(0, e, code, desc, Some(media.0), sid);
          var r := s1.(t := InsertResponse(s1.t, row));
          assert r.t.responses[|s.t.responses|..] == [row.(id := s1.t.nextResponse)];
          Ok(r)
  }

  /** The rows the media entries of one response contribute, in order. */
  function MediaRows(e: nat, code: string, desc: Json, medias: seq<(string, Json)>): seq<(nat, string, Json, Option<string>)>
  {
    if |medias| == 0 then []
    else
      var m := medias[|medias| - 1];
      MediaRows(e, code, desc, medias[..|medias| - 1]) + (if m.1.JObj? then [(e, code, desc, Some(m.0))] else [])
  }

  /** The loop over a response's `content`. */
  function Medias(s: St, c: nat, e: nat, code: string, desc: Json, medias: seq<(string, Json)>): (r: Result<St, Failure>)
    decreases |medias|
    ensures r.Err? <==> exists i :: 0 <= i < |medias| && MediaBad(medias[i].1, [desc])
    ensures r.Ok? ==> SameEndpoints(s, r.value) && r.value.byRef == s.byRef && CachesGrow(s, r.value)
    ensures r.Ok? ==> r.value.t.parameters == s.t.parameters && r.value.t.requestBodies == s.t.requestBodies
    ensures r.Ok? ==> s.t.responses <= r.value.t.responses
                      && Map(ResponseKey, r.value.t.responses[|s.t.responses|..]) == MediaRows(e, code, desc, medias)
  {
    if |medias| == 0 then Ok(s)
    else
      var init, last := medias[..|medias| - 1], medias[|medias| - 1];
      match Medias(s, c, e, code, desc, init)
      case Err(f) =>
        assert exists i :: 0 <= i < |medias| && MediaBad(medias[i].1, [desc]) by {
          var i :| 0 <= i < |init| && MediaBad(init[i].1, [desc]);
          assert medias[i] == init[i];
        }
        Err(f)
      case Ok(s1) =>
        var r := MediaStep(s1, c, e, code, desc, last);
        assert r.Err? <==> exists i :: 0 <= i < |medias| && MediaBad(medias[i].1, [desc]) by {
          if r.Err? {
            assert MediaBad(medias[|medias| - 1].1, [desc]);
          } else {
            forall i | 0 <= i < |medias| ensures !MediaBad(medias[i].1, [desc]) {
              if i < |init| {
                assert medias[i] == init[i];
              }
            }
          }
        }
        assert r.Ok? ==> Map(ResponseKey, r.value.t.responses[|s.t.responses|..]) == MediaRows(e, code, desc, medias) by {
          if r.Ok? {
            ViewStep(ResponseKey, s.t.responses, s1.t.responses, r.value.t.responses, Map(ResponseKey, s1.t.responses[|s.t.responses|..]), Map(ResponseKey, r.value.t.responses[|s1.t.responses|..]));
          }
        }
        r
  }

  /** One of a response's media entries raises. */
  predicate MediaFails(medias: seq<(string, Json)>, desc: Json)
  {
    exists i :: 0 <= i < |medias| && MediaBad(medias[i].1, [desc])
  }

  /** A dict response raises: one of its media entries does, or its content-less row cannot be bound. */
  predicate ResponseBad(resp: (string, Json))
  {
    var desc, content := Field(resp.1, "description"), Field(resp.1, "content");
    && resp.1.JObj?
    && (if content.JObj? then MediaFails(content.fields, desc) else BindFailure([desc]).Some?)
  }

  /**
   * The rows one response contributes: one per dict media entry when its `content` is a
   * dict (none for an empty dict), otherwise exactly one row without a content type.
   */
  function ResponseRowsOf(e: nat, resp: (string, Json)): seq<(nat, string, Json, Option<string>)>
  {
    var desc, content := Field(resp.1, "description"), Field(resp.1, "content");
    if !resp.1.JObj? then []
    else if content.JObj? then MediaRows(e, resp.0, desc, content.fields)
    else [(e, resp.0, desc, None)]
  }

  /** One entry of `responses`: a non-dict response is skipped. */
  function ResponseStep(s: St, c: nat, e: nat, resp: (string, Json)): (r: Result<St, Failure>)
    ensures r.Err? <==> ResponseBad(resp)
    ensures r.Ok? ==> SameEndpoints(s, r.value) && r.value.byRef == s.byRef && CachesGrow(s, r.value)
    ensures r.Ok? ==> r.value.t.parameters == s.t.parameters && r.value.t.requestBodies == s.t.requestBodies
    ensures r.Ok? ==> s.t.responses <= r.value.t.responses
                      && Map(ResponseKey, r.value.t.responses[|s.t.responses|..]) == ResponseRowsOf(e, resp)
    ensures r.Ok? ==> NoTypeNoSchema(r.value.t.responses, |s.t.responses|)
  {
    var desc, content := Field(resp.1, "description"), Field(resp.1, "content");
    if !resp.1.JObj? then Ok(s)
    else if content.JObj? then
      var r := Medias(s, c, e, resp.0, desc, content.fields);
      assert r.Ok? ==> NoTypeNoSchema(r.value.t.responses, |s.t.responses|) by {
        if r.Ok? {
          var rows := r.value.t.responses;
          forall k | |s.t.responses| <= k < |rows| ensures rows[k].contentType.Some? {
            var m := Map(ResponseKey, rows[|s.t.responses|..]);
            assert m[k - |s.t.responses|].3 == rows[k].contentType;
            MediaRowsTyped(e, resp.0, desc, content.fields);
          }
        }
      }
      r
    else
      match BindFailure([desc])
      case Some(f) => Err(f)
      case None =>
        var row := ResponseRow(0, e, resp.0, desc, None, None);
        var r := s.(t := InsertResponse(s.t, row));
        assert r.t.responses[|s.t.responses|..] == [row.(id := s.t.nextResponse)];
        Ok(r)
  }

  lemma {:induction false} MediaRowsTyped(e: nat, code: string, desc: Json, medias: seq<(string, Json)>)
    ensures forall k :: 0 <= k < |MediaRows(e, code, desc, medias)| ==> MediaRows(e, code, desc, medias)[k].3.Some?
    decreases |medias|
  {
    if |medias| > 0 {
      MediaRowsTyped(e, code, desc, medias[..|medias| - 1]);
    }
  }

  /** The rows the responses contribute, in order. */
  function ResponseRows(e: nat, resps: seq<(string, Json)>): seq<(nat, string, Json, Option<string>)>
  {
    if |resps| == 0 then [] else ResponseRows(e, resps[..|resps| - 1]) + ResponseRowsOf(e, resps[|resps| - 1])
  }

  /** The loop over `responses`. */
  function Responses(s: St, c: nat, e: nat, resps: seq<(string, Json)>): (r: Result<St, Failure>)
    decreases |resps|
    ensures r.Ok? ==> SameEndpoints(s, r.value) && r.value.byRef == s.byRef && CachesGrow(s, r.value)
    ensures r.Ok? ==> r.value.t.parameters == s.t.parameters && r.value.t.requestBodies == s.t.requestBodies
    ensures r.Ok? ==> s.t.responses <= r.value.t.responses
                      && Map(ResponseKey, r.value.t.responses[|s.t.responses|..]) == ResponseRows(e, resps)
    ensures r.Ok? ==> NoTypeNoSchema(r.value.t.responses, |s.t.responses|)
  {
    if |resps| == 0 then Ok(s)
    else
      var init, last := resps[..|resps| - 1], resps[|resps| - 1];
      match Responses(s, c, e, init)
      case Err(f) => Err(f)
      case Ok(s1) =>
        var r := ResponseStep(s1, c, e, last);
        assert r.Ok? ==> Map(ResponseKey, r.value.t.responses[|s.t.responses|..]) == ResponseRows(e, resps) by {
          if r.Ok? {
            ViewStep(ResponseKey, s.t.responses, s1.t.responses, r.value.t.responses, Map(ResponseKey, s1.t.responses[|s.t.responses|..]), Map(ResponseKey, r.value.t.responses[|s1.t.responses|..]));
          }
        }
        r
  }

  /** The loop over `responses` raises exactly when one of the responses does. */
  lemma {:induction false} ResponsesFail(s: St, c: nat, e: nat, resps: seq<(string, Json)>)
    ensures Responses(s, c, e, resps).Err? <==> exists i :: 0 <= i < |resps| && ResponseBad(resps[i])
    decreases |resps|
  {
    if |resps| > 0 {
      var init := resps[..|resps| - 1];
      ResponsesFail(s, c, e, init);
      if Responses(s, c, e, init).Err? {
        var i :| 0 <= i < |init| && ResponseBad(init[i]);
        assert resps[i] == init[i];
      } else if ResponseStep(Responses(s, c, e, init).value, c, e, resps[|resps| - 1]).Err? {
        assert ResponseBad(resps[|resps| - 1]);
      } else {
        forall i | 0 <= i < |resps| ensures !ResponseBad(resps[i]) {
          if i < |init| {
            assert resps[i] == init[i];
          }
        }
      }
    }
  }

  /** The responses branch of one operation: only a dict `responses` has entries. */
  function ResponsesOf(s: St, c: nat, e: nat, op: Json): (r: Result<St, Failure>)
    ensures !Field(op, "responses").JObj? ==> r == Ok(s)
    ensures Field(op, "responses").JObj? ==> r == Responses(s, c, e, Field(op, "responses").fields)
  {
    var ro := Field(op, "responses");
    if ro.JObj? then Responses(s, c, e, ro.fields) else Ok(s)
  }

  // ---------------------------------------------------------------- endpoints

  const HttpVerbs: seq<string> := ["get", "post", "put", "delete", "patch", "options", "head", "trace"]

  /** A path-item entry that is an operation: its key lower-cased is an HTTP verb and its value a dict. */
  predicate IsOperation(op: (string, Json))
  {
    Lower(op.0) in HttpVerbs && op.1.JObj?
  }

  /** The statement parameters the endpoint INSERT binds from the operation. */
  function EndpointBinds(o: Json): seq<Json>
  {
    [Field(o, "operationId"), Field(o, "summary"), Field(o, "description")]
  }

  function EndpointView(row: EndpointRow): (nat, string, string, Json, Json, Json)
  {
    (row.contractId, row.path, row.verb, row.operationId, row.summary, row.description)
  }

  /** The endpoint row an entry of a path item contributes, verb upper-cased. */
  function OpRow(c: nat, path: string, op: (string, Json)): seq<(nat, string, string, Json, Json, Json)>
  {
    if IsOperation(op) then
      [(c, path, Upper(op.0), Field(op.1, "operationId"), Field(op.1, "summary"), Field(op.1, "description"))]
    else []
  }

  /**
   * One entry of a path item: anything but an operation is skipped; an operation inserts its
   * endpoint row (UNIQUE (contract_id, path, http_verb) may reject it) and then processes
   * its parameters, request body and responses against the new endpoint id.
   */
  function OperationStep(s: St, c: nat, path: string, item: Json, op: (string, Json)): (r: Result<St, Failure>)
    requires item.JObj?
    ensures !IsOperation(op) ==> r == Ok(s)
    // A second operation with the same upper-cased verb on the same path is a constraint violation.
    ensures IsOperation(op) && BindFailure(EndpointBinds(op.1)).None? && !EndpointFree(s.t.endpoints, c, path, Upper(op.0))
            ==> r == Err(SqliteError)
    ensures r.Ok? ==> r.value.t.contracts == s.t.contracts && r.value.t.nextContract == s.t.nextContract
    ensures r.Ok? ==> r.value.byRef == s.byRef && CachesGrow(s, r.value)
    ensures r.Ok? ==> s.t.endpoints <= r.value.t.endpoints
                      && Map(EndpointView, r.value.t.endpoints[|s.t.endpoints|..]) == OpRow(c, path, op)
  {
    if !IsOperation(op) then Ok(s)
    else
      var o := op.1;
      match BindFailure(EndpointBinds(o))
      case Some(f) => Err(f)
      case None =>
        var row := EndpointRow(0, c, path, Upper(op.0), Field(o, "operationId"), Field(o, "summary"), Field(o, "description"));
        match InsertEndpoint(s.t, row)
        case Err(f) => Err(f)
        case Ok((t1, e)) =>
          assert t1.endpoints[|s.t.endpoints|..] == [row.(id := e)];
          EndpointChildren(s.(t := t1), c, e, item, o)
  }

  /**
   * The loop over "parameters", "requestBody" and "responses" for endpoint `e`: the
   * parameter list is built (and may raise) before any parameter is processed.
   */
  function EndpointChildren(s: St, c: nat, e: nat, item: Json, o: Json): (r: Result<St, Failure>)
    requires item.JObj? && o.JObj?
    ensures r.Ok? ==> SameEndpoints(s, r.value) && r.value.byRef == s.byRef && CachesGrow(s, r.value)
  {
    match ParamItems(o, item)
    case Err(f) => Err(f)
    case Ok(items) =>
      match Params(s, c, e, items)
      case Err(f) => Err(f)
      case Ok(s2) =>
        match RequestBody(s2, c, e, o)
        case Err(f) => Err(f)
        case Ok(s3) => ResponsesOf(s3, c, e, o)
  }

  /** The endpoint rows the entries of one path item contribute, in order. */
  function OpRows(c: nat, path: string, ops: seq<(string, Json)>): seq<(nat, string, string, Json, Json, Json)>
  {
    FlatMap((op: (string, Json)) => OpRow(c, path, op), ops)
  }

  /** The loop over the entries of one path item. */
  function Operations(s: St, c: nat, path: string, item: Json, ops: seq<(string, Json)>): (r: Result<St, Failure>)
    requires item.JObj?
    decreases |ops|
    ensures r.Ok? ==> r.value.t.contracts == s.t.contracts && r.value.t.nextContract == s.t.nextContract
    ensures r.Ok? ==> r.value.byRef == s.byRef && CachesGrow(s, r.value)
    ensures r.Ok? ==> s.t.endpoints <= r.value.t.endpoints
                      && Map(EndpointView, r.value.t.endpoints[|s.t.endpoints|..]) == OpRows(c, path, ops)
  {
    if |ops| == 0 then Ok(s)
    else
      match Operations(s, c, path, item, ops[..|ops| - 1])
      case Err(f) => Err(f)
      case Ok(s1) =>
        var r := OperationStep(s1, c, path, item, ops[|ops| - 1]);
        assert r.Ok? ==> Map(EndpointView, r.value.t.endpoints[|s.t.endpoints|..]) == OpRows(c, path, ops) by {
          if r.Ok? {
            ViewStep(EndpointView, s.t.endpoints, s1.t.endpoints, r.value.t.endpoints, Map(EndpointView, s1.t.endpoints[|s.t.endpoints|..]), Map(EndpointView, r.value.t.endpoints[|s1.t.endpoints|..]));
          }
        }
        r
  }

  /** One entry of `paths`: a path item that is not a dict is skipped. */
  function PathStep(s: St, c: nat, entry: (string, Json)): (r: Result<St, Failure>)
    ensures !entry.1.JObj? ==> r == Ok(s)
    ensures entry.1.JObj? ==> r == Operations(s, c, entry.0, entry.1, entry.1.fields)
  {
    if entry.1.JObj? then Operations(s, c, entry.0, entry.1, entry.1.fields) else Ok(s)
  }

  /** The endpoint rows of the whole `paths` mapping, in iteration order. */
  function PathRows(c: nat, entries: seq<(string, Json)>): seq<(nat, string, string, Json, Json, Json)>
  {
    FlatMap((entry: (string, Json)) => PathItemRows(c, entry), entries)
  }

  function PathItemRows(c: nat, entry: (string, Json)): seq<(nat, string, string, Json, Json, Json)>
  {
    if entry.1.JObj? then OpRows(c, entry.0, entry.1.fields) else []
  }

  /** The loop over `paths`. */
  function Paths(s: St, c: nat, entries: seq<(string, Json)>): (r: Result<St, Failure>)
    decreases |entries|
    ensures r.Ok? ==> r.value.t.contracts == s.t.contracts && r.value.t.nextContract == s.t.nextContract
    ensures r.Ok? ==> r.value.byRef == s.byRef && CachesGrow(s, r.value)
    ensures r.Ok? ==> s.t.endpoints <= r.value.t.endpoints
                      && Map(EndpointView, r.value.t.endpoints[|s.t.endpoints|..]) == PathRows(c, entries)
  {
    if |entries| == 0 then Ok(s)
    else
      match Paths(s, c, entries[..|entries| - 1])
      case Err(f) => Err(f)
      case Ok(s1) =>
        var r := PathStep(s1, c, entries[|entries| - 1]);
        assert r.Ok? ==> Map(EndpointView, r.value.t.endpoints[|s.t.endpoints|..]) == PathRows(c, entries) by {
          if r.Ok? {
            ViewStep(EndpointView, s.t.endpoints, s1.t.endpoints, r.value.t.endpoints, Map(EndpointView, s1.t.endpoints[|s.t.endpoints|..]), Map(EndpointView, r.value.t.endpoints[|s1.t.endpoints|..]));
          }
        }
        r
  }
}
