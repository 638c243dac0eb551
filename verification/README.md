# llm-and-me tools, modelled in Dafny

This project models the deterministic core of the tool servers in the llm-and-me developer
assistant and proves properties of that model. Every file is a Dafny module named after the
Python file it models; three shared modules hold the helpers: `Wrappers` (Option and Result),
`Strs` (Python string operations) and `JsonValue` (a loaded JSON or YAML value). `Seqs` holds
sequence lemmas.

**OpenAPI ingestion** (`openapi_to_sqlite.py`). This is the main core. It projects a parsed
OpenAPI document into six SQLite tables, inside one transaction.
- `OpenApiTables`: the tables as in-memory row sequences with their AUTOINCREMENT counters and
  their UNIQUE constraints. A ref path is unique only when it is not NULL.
- `SchemaJson`: `get_schema_as_json_string`. The sorted-key JSON text is represented by a
  canonical value whose object keys are sorted at every level.
- `OpenApiStore`: `_store_schema_definition_and_get_id`, covering its cache hit, its claim of an
  anonymous row, its insert and its IntegrityError fallback. It also covers the resolution of a
  `schema` field, which goes through the ref cache or stores the schema inline.
- `OpenApiPasses`: the two component passes.
- `OpenApiPaths`: the projection of `paths` into endpoint, parameter, request-body and response
  rows. `OpenApiPathsInv` proves that this projection keeps the store's invariant.
- `OpenApiIngest`: the whole transaction body as a function.
- `OpenApiTransaction`: the same run as the source performs it. A `Transaction` object holds the
  working tables and the two caches as fields, and its nested loops update them in place. The
  `Database` commits the working tables on success and keeps its committed tables when an
  exception ends the run.
Each loop method is proved to compute the left fold that specifies it, and the lemmas are
proved about those folds.

**Smaller tools.**
- `OpenApiTree` (`openapi_to_tree.py`): the nested path-segment tree and the validation in
  front of it.
- `DescendantTeams` (`get_descendent_teams.py`): the tag map and the breadth-first descendant
  search.
- `TeamComponents` (`get_team_components.py`): the ownership filter and the document file
  name.
- `MarkdownSplitter` (`md_splitter.py`): header-level detection, splitting into sections, file
  name sanitisation and the result message.
- `GitChangeWarning` (`git_change_warning.py`): the size rule and the numstat accounting.
- `ApiKeySelector` (`api_key_selector.py`): key lookup and the account listing sorted by
  ORDER.
- `ApmEntitySelection` (`get_apm_entity_by_tag.py`): the preferred-entity rule.
- `JsonToSqlite` (`json_to_sqlite.py`): column derivation and row projection.

Behaviours of the code worth noting:
- Pass 2 (openapi_to_sqlite.py:316-326) resolves an alias when its target is in the ref cache
  at its turn. That includes a pass-1 definition and an alias resolved earlier in iteration
  order, so alias chains in iteration order are followed
  (`OpenApiPasses.Pass2ResolvesAfterPass1`).
- Pass 1 (openapi_to_sqlite.py:276-308) skips every component that holds a `$ref` key, not
  only bare `{"$ref": ...}` aliases.
- Any `$ref` string is looked up in the ref cache. A string that is not a
  `#/components/schemas/` path simply misses.
- Operation-level parameters come first, followed by the path-item parameters.
- A response with a `content` dict gives one row per dict media entry, so an empty dict gives
  no row. Only a response whose `content` is missing or is not a dict gives the single row with
  NULL content type.
- Components are stored before any inline schema, and each run gets a fresh contract id. So
  within one ingestion, a component never claims an anonymous row, and the store's
  IntegrityError fallback is never taken. The store is specified by its own contract, which
  covers both branches (`OpenApiStore.StoreSchema`).
- Two verb keys of one path that differ only in case violate UNIQUE(contract_id, path,
  http_verb), and this rolls back the whole ingestion (`OpenApiPaths.OperationStep`).
- Binding a dict or a list to an SQL parameter raises, and this rolls back the whole ingestion.
  So does binding an integer outside the 64-bit range.

## Model

| member | source | states |
|---|---|---|
| OpenApiTables.EmptyTables | packages/tools/src/llm_and_me_tools/openapi_tools/openapi_to_sqlite.py:24-115 | the freshly created tables satisfy every primary-key and UNIQUE invariant (Valid) |
| OpenApiTables.BindFailure | packages/tools/src/llm_and_me_tools/openapi_tools/openapi_to_sqlite.py:414-424 | binding succeeds exactly when every parameter is a bindable value; otherwise the error is that of an unbindable parameter |
| OpenApiTables.InsertContract | packages/tools/src/llm_and_me_tools/openapi_tools/openapi_to_sqlite.py:260-271 | the new contract row takes the next AUTOINCREMENT id, nothing else changes, the invariant is kept and every existing schema row belongs to an older contract |
| OpenApiTables.InsertSchema | packages/tools/src/llm_and_me_tools/openapi_tools/openapi_to_sqlite.py:164-175 | the insert is refused exactly when the contract already holds the same text or the same non-NULL ref path; otherwise the row is appended with the next id and the invariant is kept |
| OpenApiTables.SchemaIndex | packages/tools/src/llm_and_me_tools/openapi_tools/openapi_to_sqlite.py:140-144 | finds the first row with the given id, and finds nothing exactly when no row has it |
| OpenApiTables.ContentIndex | packages/tools/src/llm_and_me_tools/openapi_tools/openapi_to_sqlite.py:177-181 | finds a row of the contract holding the text, and finds nothing exactly when the contract holds no such text |
| OpenApiTables.Claim | packages/tools/src/llm_and_me_tools/openapi_tools/openapi_to_sqlite.py:138-160 | only the schema table changes; only the anonymous row with the given id can change, and it takes the component's name and ref path; a row with a ref path or another id is untouched; the invariant is kept |
| OpenApiTables.InsertEndpoint | packages/tools/src/llm_and_me_tools/openapi_tools/openapi_to_sqlite.py:361-372 | fails with an SQLite error exactly when the contract already has this path and verb; otherwise the row takes the next id and the invariant is kept |
| OpenApiTables.InsertParameter | packages/tools/src/llm_and_me_tools/openapi_tools/openapi_to_sqlite.py:414-424 | appends the parameter row with the next id and keeps the invariant |
| OpenApiTables.InsertRequestBody | packages/tools/src/llm_and_me_tools/openapi_tools/openapi_to_sqlite.py:461-470 | appends the request-body row with the next id and keeps the invariant |
| OpenApiTables.InsertResponse | packages/tools/src/llm_and_me_tools/openapi_tools/openapi_to_sqlite.py:512-532 | appends the response row with the next id and keeps the invariant |
| OpenApiStore.GrowsTrans | packages/tools/src/llm_and_me_tools/openapi_tools/openapi_to_sqlite.py:247-252 | two successive steps that each only extend the tables and grow the caches together only extend and grow |
| OpenApiStore.ClaimKeepsInv | packages/tools/src/llm_and_me_tools/openapi_tools/openapi_to_sqlite.py:138-160 | claiming a row of the contract keeps the cache invariant and only extends the tables |
| OpenApiStore.ClaimKeepsCaches | packages/tools/src/llm_and_me_tools/openapi_tools/openapi_to_sqlite.py:138-160 | after a claim every cached text still names the row of the contract holding it and every cached ref path a row of the contract |
| OpenApiStore.ClaimExtends | packages/tools/src/llm_and_me_tools/openapi_tools/openapi_to_sqlite.py:145-152 | a claim leaves contracts, ids, contract ids and texts alone and changes no row that has a ref path or belongs to another contract |
| OpenApiStore.InsertKeepsInv | packages/tools/src/llm_and_me_tools/openapi_tools/openapi_to_sqlite.py:164-172 | inserting new text and caching its id keeps the cache invariant, the new id names the new row, and the tables only grow |
| OpenApiStore.StoreSchema | packages/tools/src/llm_and_me_tools/openapi_tools/openapi_to_sqlite.py:118-211 | no fragment stores nothing; a failure changes nothing; success caches the sorted-key text; the ref cache is untouched; only the schema table changes, and rows are only appended or claimed; a row is appended only for text the contract did not hold |
| OpenApiStore.StoreKeepsInv | packages/tools/src/llm_and_me_tools/openapi_tools/openapi_to_sqlite.py:118-211 | storing keeps the invariant and extends the tables; the returned id names a row of the contract holding the text; a failure happens only for uncached text whose ref path another row of the contract already holds |
| OpenApiStore.StoreAnonymousSucceeds | packages/tools/src/llm_and_me_tools/openapi_tools/openapi_to_sqlite.py:173-205 | a fragment stored without a ref path always gets an id |
| OpenApiStore.ResolveSchema | packages/tools/src/llm_and_me_tools/openapi_tools/openapi_to_sqlite.py:389-411 | a non-dict gives NULL; an unhashable `$ref` value is the only error; a `$ref` stores nothing and resolves exactly when its target is cached, to the cached id; any other dict is stored whole; the ref cache never changes |
| OpenApiStore.ResolveKeepsInv | packages/tools/src/llm_and_me_tools/openapi_tools/openapi_to_sqlite.py:389-411 | resolving keeps the invariant and only extends the tables, and an inline schema always gets an id |
| OpenApiStore.StoreSameContent | packages/tools/src/llm_and_me_tools/openapi_tools/openapi_to_sqlite.py:132-137 | storing a fragment and then one equal up to key order returns the same id and adds no row |
| SchemaJson.InsertField | packages/tools/src/llm_and_me_tools/openapi_tools/openapi_to_sqlite.py:15-21 | the result holds the fields and the new one, one longer, and stays strictly sorted when the new key is absent |
| SchemaJson.SortFields | packages/tools/src/llm_and_me_tools/openapi_tools/openapi_to_sqlite.py:15-21 | sorting a dict's items is a permutation of them, strictly increasing by key when keys are distinct |
| SchemaJson.ConsSorted | packages/tools/src/llm_and_me_tools/openapi_tools/openapi_to_sqlite.py:15-21 | a field below the smallest key of a sorted list can be put in front of it |
| SchemaJson.KeyAbsent | packages/tools/src/llm_and_me_tools/openapi_tools/openapi_to_sqlite.py:15-21 | two field lists with the same items avoid the same keys |
| SchemaJson.SchemaAsJsonString | packages/tools/src/llm_and_me_tools/openapi_tools/openapi_to_sqlite.py:15-21 | a missing fragment has no text, a present one always has one, canonical (keys sorted at every level) when sort_keys is set |
| SchemaJson.SortedUnique | packages/tools/src/llm_and_me_tools/openapi_tools/openapi_to_sqlite.py:15-21 | two strictly sorted field lists with the same fields are equal, so the sorted form is unique |
| SchemaJson.CanonPairs | packages/tools/src/llm_and_me_tools/openapi_tools/openapi_to_sqlite.py:15-21 | each field keeps its key and position and its value is put in canonical form |
| SchemaJson.CanonObject | packages/tools/src/llm_and_me_tools/openapi_tools/openapi_to_sqlite.py:15-21 | the canonical form of an object is its canonical fields sorted by key |
| SchemaJson.SameSortedPairs | packages/tools/src/llm_and_me_tools/openapi_tools/openapi_to_sqlite.py:15-21 | two dicts with the same keys and canonically equal values give the same sorted canonical fields |
| SchemaJson.CanonRespectsEquiv | packages/tools/src/llm_and_me_tools/openapi_tools/openapi_to_sqlite.py:15-21 | fragments equal up to the order of keys have the same canonical form, hence the same de-duplication key |
| OpenApiPasses.ComponentRef | packages/tools/src/llm_and_me_tools/openapi_tools/openapi_to_sqlite.py:290 | the ref path of a component is the schemas prefix followed by its name |
| OpenApiPasses.Pass1Step | packages/tools/src/llm_and_me_tools/openapi_tools/openapi_to_sqlite.py:278-308 | a non-definition is skipped; only the schema table and the caches change, the caches only grow, and at most the component's own ref path is registered |
| OpenApiPasses.RegisterKeepsInv | packages/tools/src/llm_and_me_tools/openapi_tools/openapi_to_sqlite.py:299-301 | registering a ref path for a row of the contract keeps the cache invariant |
| OpenApiPasses.Pass1StepKeepsInv | packages/tools/src/llm_and_me_tools/openapi_tools/openapi_to_sqlite.py:278-308 | one step of pass 1 keeps the invariant and only extends the tables |
| OpenApiPasses.Pass1 | packages/tools/src/llm_and_me_tools/openapi_tools/openapi_to_sqlite.py:277-308 | pass 1 changes only the schema table and the caches; the caches only grow; every new ref path is a component's |
| OpenApiPasses.Pass1KeepsInv | packages/tools/src/llm_and_me_tools/openapi_tools/openapi_to_sqlite.py:277-308 | pass 1 keeps the invariant and only extends the tables |
| OpenApiPasses.NamedByMore | packages/tools/src/llm_and_me_tools/openapi_tools/openapi_to_sqlite.py:278-308 | a row named by one of the first n components stays named by one of the first n+1 |
| OpenApiPasses.RowsNamedMore | packages/tools/src/llm_and_me_tools/openapi_tools/openapi_to_sqlite.py:278-308 | every row of the contract stays named when one more component is considered |
| OpenApiPasses.RefKeysMore | packages/tools/src/llm_and_me_tools/openapi_tools/openapi_to_sqlite.py:299-301 | registering the path of the next definition extends the registered paths by exactly that path |
| OpenApiPasses.RefKeysSkip | packages/tools/src/llm_and_me_tools/openapi_tools/openapi_to_sqlite.py:279-288 | skipping a non-definition leaves the registered paths those of the definitions seen so far |
| OpenApiPasses.Pass1FreshRef | packages/tools/src/llm_and_me_tools/openapi_tools/openapi_to_sqlite.py:299-308 | with distinct component names, the next component's path is neither cached nor held by a row |
| OpenApiPasses.Pass1StepReused | packages/tools/src/llm_and_me_tools/openapi_tools/openapi_to_sqlite.py:136-161 | a definition whose text is cached and whose row already has a ref path only registers the cached id |
| OpenApiPasses.Pass1StepInserted | packages/tools/src/llm_and_me_tools/openapi_tools/openapi_to_sqlite.py:164-172 | a definition with new text under a fresh path appends one row carrying its name and path and registers it |
| OpenApiPasses.Pass1StepSkip | packages/tools/src/llm_and_me_tools/openapi_tools/openapi_to_sqlite.py:279-288 | skipping a non-definition keeps the shape pass 1 has built |
| OpenApiPasses.Pass1StepReuse | packages/tools/src/llm_and_me_tools/openapi_tools/openapi_to_sqlite.py:136-161 | a definition whose text is already stored reuses that row, which keeps the first name; the shape is kept |
| OpenApiPasses.Pass1TargetsReuse | packages/tools/src/llm_and_me_tools/openapi_tools/openapi_to_sqlite.py:299-301 | after registering a reused row, every definition's path points at a row holding its text |
| OpenApiPasses.Pass1StepInsert | packages/tools/src/llm_and_me_tools/openapi_tools/openapi_to_sqlite.py:164-172 | a definition with new text is inserted under its name and path; the shape is kept |
| OpenApiPasses.Pass1RowsInsert | packages/tools/src/llm_and_me_tools/openapi_tools/openapi_to_sqlite.py:164-172 | the appended row is named by the first definition with its text |
| OpenApiPasses.Pass1TargetsInsert | packages/tools/src/llm_and_me_tools/openapi_tools/openapi_to_sqlite.py:299-301 | after inserting and registering, every definition's path points at a row holding its text |
| OpenApiPasses.Pass1Builds | packages/tools/src/llm_and_me_tools/openapi_tools/openapi_to_sqlite.py:276-308 | from a fresh contract, every definition is registered under its path and points at the row holding its text; that row carries the name and path of the first definition with the same text; nothing else is registered |
| OpenApiPasses.Pass2Step | packages/tools/src/llm_and_me_tools/openapi_tools/openapi_to_sqlite.py:311-337 | fails exactly for an unregistered alias whose target is unhashable; otherwise tables and the content cache are untouched and a path is added exactly for an unregistered alias whose target is registered, taking an id already registered |
| OpenApiPasses.Pass2 | packages/tools/src/llm_and_me_tools/openapi_tools/openapi_to_sqlite.py:310-337 | pass 2 writes no row, only adds ref paths that reuse registered ids, fails only with an unexpected error, and cannot fail when every alias target is hashable |
| OpenApiPasses.FoldSplit | packages/tools/src/llm_and_me_tools/openapi_tools/openapi_to_sqlite.py:310-337 | a fold that stops at the first failure can be split at any point |
| OpenApiPasses.Pass2IsFold | packages/tools/src/llm_and_me_tools/openapi_tools/openapi_to_sqlite.py:310-337 | pass 2 is such a fold of its step |
| OpenApiPasses.Pass2Split | packages/tools/src/llm_and_me_tools/openapi_tools/openapi_to_sqlite.py:310-337 | pass 2 over all components is pass 2 over a prefix carried on over the rest |
| OpenApiPasses.Pass2Resolves | packages/tools/src/llm_and_me_tools/openapi_tools/openapi_to_sqlite.py:316-326 | from any state where the alias's own path is not yet registered, the alias is registered at the end exactly when its target was registered at its turn |
| OpenApiPasses.Pass2ResolvesAfterPass1 | packages/tools/src/llm_and_me_tools/openapi_tools/openapi_to_sqlite.py:276-326 | after pass 1 of a fresh contract, an alias is registered at the end exactly when its target was registered at its turn, as a pass-1 definition or by an earlier alias |
| OpenApiPaths.ParamItems | packages/tools/src/llm_and_me_tools/openapi_tools/openapi_to_sqlite.py:383-385 | the parameter list exists exactly when both sides are lists (their concatenation) or both strings (one-character items, none a dict); anything else is an unexpected error |
| OpenApiPaths.ParamStep | packages/tools/src/llm_and_me_tools/openapi_tools/openapi_to_sqlite.py:386-424 | fails exactly for a malformed dict parameter; a non-dict is skipped; only the parameter table, the schema table and the content cache change, and parameter rows are only appended |
| OpenApiPaths.Params | packages/tools/src/llm_and_me_tools/openapi_tools/openapi_to_sqlite.py:386-424 | fails exactly when some parameter is malformed; otherwise the appended parameter rows are exactly those of the wanted parameters, in order, and no other table but the schemas changes |
| OpenApiPaths.BadSplit | packages/tools/src/llm_and_me_tools/openapi_tools/openapi_to_sqlite.py:386-388 | some parameter is malformed exactly when one before the last is or the last is |
| OpenApiPaths.BodyStep | packages/tools/src/llm_and_me_tools/openapi_tools/openapi_to_sqlite.py:433-470 | fails exactly for a malformed media entry; only the request-body table, the schema table and the content cache change |
| OpenApiPaths.Bodies | packages/tools/src/llm_and_me_tools/openapi_tools/openapi_to_sqlite.py:433-470 | fails exactly when some media entry is malformed; otherwise the appended request-body rows are one per dict media entry, in order, with the body's description and required flag |
| OpenApiPaths.RequestBody | packages/tools/src/llm_and_me_tools/openapi_tools/openapi_to_sqlite.py:426-432 | a request body that is not a dict, or whose content is not a dict, adds nothing; otherwise each content entry is processed with the body's description and required flag (default False) |
| OpenApiPaths.MediaStep | packages/tools/src/llm_and_me_tools/openapi_tools/openapi_to_sqlite.py:485-521 | fails exactly for a malformed media entry; only the response table, the schema table and the content cache change |
| OpenApiPaths.Medias | packages/tools/src/llm_and_me_tools/openapi_tools/openapi_to_sqlite.py:481-521 | fails exactly when some media entry is malformed; otherwise the appended response rows are one per dict media entry, in order |
| OpenApiPaths.ResponseStep | packages/tools/src/llm_and_me_tools/openapi_tools/openapi_to_sqlite.py:475-532 | fails exactly for a malformed response; the appended rows are one per dict media entry when the content is a dict, else one row without content type; a row without a content type has no schema |
| OpenApiPaths.MediaRowsTyped | packages/tools/src/llm_and_me_tools/openapi_tools/openapi_to_sqlite.py:512-521 | every row contributed by a media entry has a content type |
| OpenApiPaths.Responses | packages/tools/src/llm_and_me_tools/openapi_tools/openapi_to_sqlite.py:473-532 | the appended response rows are exactly those of the responses in order, and a row without a content type never has a schema |
| OpenApiPaths.ResponsesFail | packages/tools/src/llm_and_me_tools/openapi_tools/openapi_to_sqlite.py:475-532 | the loop over the responses fails exactly when one of the responses is malformed |
| OpenApiPaths.ResponsesOf | packages/tools/src/llm_and_me_tools/openapi_tools/openapi_to_sqlite.py:473-474 | a responses field that is not a dict adds nothing; a dict is processed entry by entry |
| OpenApiPaths.OperationStep | packages/tools/src/llm_and_me_tools/openapi_tools/openapi_to_sqlite.py:344-378 | a non-operation is skipped; a second operation with the same upper-cased verb on one path is an SQLite error; contracts and the ref cache are untouched; the endpoint row appended is the operation's, with the verb upper-cased |
| OpenApiPaths.EndpointChildren | packages/tools/src/llm_and_me_tools/openapi_tools/openapi_to_sqlite.py:380-532 | processing parameters, request body and responses of an endpoint leaves endpoints, contracts and the ref cache untouched |
| OpenApiPaths.Operations | packages/tools/src/llm_and_me_tools/openapi_tools/openapi_to_sqlite.py:344-532 | the endpoint rows appended for a path item are exactly those of its operations, in order |
| OpenApiPaths.PathStep | packages/tools/src/llm_and_me_tools/openapi_tools/openapi_to_sqlite.py:341-343 | a path item that is not a dict is skipped; a dict has its entries processed |
| OpenApiPaths.Paths | packages/tools/src/llm_and_me_tools/openapi_tools/openapi_to_sqlite.py:340-532 | the endpoint rows appended for the paths mapping are exactly those of its operations, in iteration order; contracts and the ref cache are untouched |
| OpenApiPathsInv.AppendsTrans | packages/tools/src/llm_and_me_tools/openapi_tools/openapi_to_sqlite.py:340-532 | two successive append-only steps together are append-only |
| OpenApiPathsInv.ResolveKeepsRefs | packages/tools/src/llm_and_me_tools/openapi_tools/openapi_to_sqlite.py:389-411 | resolving a schema field never names or claims a row: rows with a ref path are old rows, unchanged |
| OpenApiPathsInv.AppendKeepsInv | packages/tools/src/llm_and_me_tools/openapi_tools/openapi_to_sqlite.py:361-532 | appending rows below the contract's endpoints without touching schemas or caches keeps the invariant |
| OpenApiPathsInv.ResolveThenAppend | packages/tools/src/llm_and_me_tools/openapi_tools/openapi_to_sqlite.py:389-424 | resolving a schema and then appending a row keeps the invariant and is append-only |
| OpenApiPathsInv.ParamStepKeepsInv | packages/tools/src/llm_and_me_tools/openapi_tools/openapi_to_sqlite.py:386-424 | one parameter keeps the invariant and only appends rows |
| OpenApiPathsInv.ParamsKeepInv | packages/tools/src/llm_and_me_tools/openapi_tools/openapi_to_sqlite.py:386-424 | the parameter loop keeps the invariant and only appends rows |
| OpenApiPathsInv.BodyStepKeepsInv | packages/tools/src/llm_and_me_tools/openapi_tools/openapi_to_sqlite.py:433-470 | one request-body media entry keeps the invariant and only appends rows |
| OpenApiPathsInv.BodiesKeepInv | packages/tools/src/llm_and_me_tools/openapi_tools/openapi_to_sqlite.py:433-470 | the request-body loop keeps the invariant and only appends rows |
| OpenApiPathsInv.MediaStepKeepsInv | packages/tools/src/llm_and_me_tools/openapi_tools/openapi_to_sqlite.py:481-521 | one response media entry keeps the invariant and only appends rows |
| OpenApiPathsInv.MediasKeepInv | packages/tools/src/llm_and_me_tools/openapi_tools/openapi_to_sqlite.py:481-521 | the response media loop keeps the invariant and only appends rows |
| OpenApiPathsInv.ResponseStepKeepsInv | packages/tools/src/llm_and_me_tools/openapi_tools/openapi_to_sqlite.py:475-532 | one response keeps the invariant and only appends rows |
| OpenApiPathsInv.ResponsesKeepInv | packages/tools/src/llm_and_me_tools/openapi_tools/openapi_to_sqlite.py:475-532 | the responses loop keeps the invariant and only appends rows |
| OpenApiPathsInv.RequestBodyKeepsInv | packages/tools/src/llm_and_me_tools/openapi_tools/openapi_to_sqlite.py:426-470 | the request-body branch keeps the invariant and only appends rows |
| OpenApiPathsInv.ResponsesOfKeepsInv | packages/tools/src/llm_and_me_tools/openapi_tools/openapi_to_sqlite.py:472-532 | the responses branch keeps the invariant and only appends rows |
| OpenApiPathsInv.EndpointChildrenKeepInv | packages/tools/src/llm_and_me_tools/openapi_tools/openapi_to_sqlite.py:380-532 | the children of one endpoint keep the invariant and only append rows |
| OpenApiPathsInv.OperationStepKeepsInv | packages/tools/src/llm_and_me_tools/openapi_tools/openapi_to_sqlite.py:344-532 | one operation keeps the invariant and only appends rows |
| OpenApiPathsInv.OperationsKeepInv | packages/tools/src/llm_and_me_tools/openapi_tools/openapi_to_sqlite.py:344-532 | the loop over a path item keeps the invariant and only appends rows |
| OpenApiPathsInv.PathsKeepInv | packages/tools/src/llm_and_me_tools/openapi_tools/openapi_to_sqlite.py:340-532 | the projection of paths keeps the invariant and only appends rows; contracts, existing rows and caches stay as they were |
| OpenApiPathsInv.SuffixKeysDistinct | packages/tools/src/llm_and_me_tools/openapi_tools/openapi_to_sqlite.py:57-71 | rows appended to an endpoint table with unique keys have pairwise distinct keys |
| OpenApiPathsInv.PathsEndpointsDistinct | packages/tools/src/llm_and_me_tools/openapi_tools/openapi_to_sqlite.py:57-71 | a successful projection adds endpoint rows with pairwise distinct (contract, path, verb) keys |
| OpenApiPathsInv.OpRowsTwo | packages/tools/src/llm_and_me_tools/openapi_tools/openapi_to_sqlite.py:344-371 | two operations of one path item give two endpoint rows carrying their upper-cased verbs, in order |
| OpenApiPathsInv.RepeatedVerbKeys | packages/tools/src/llm_and_me_tools/openapi_tools/openapi_to_sqlite.py:344-371 | two operations of one path item whose verbs agree once upper-cased produce a repeated endpoint key |
| OpenApiPathsInv.RepeatInside | packages/tools/src/llm_and_me_tools/openapi_tools/openapi_to_sqlite.py:57-71 | a block with a repeated key repeats it in any table holding the block |
| OpenApiPathsInv.RepeatedVerbFails | packages/tools/src/llm_and_me_tools/openapi_tools/openapi_to_sqlite.py:344-371 | a path item with two operations whose verbs differ only in case makes the whole projection fail |
| OpenApiPathsInv.ParamSchemaStored | packages/tools/src/llm_and_me_tools/openapi_tools/openapi_to_sqlite.py:389-424 | a parameter's inline schema is stored and cached even when the parameter gets no row for lack of name or in |
| OpenApiIngest.ContractTitle | packages/tools/src/llm_and_me_tools/openapi_tools/openapi_to_sqlite.py:256 | a given (truthy) title wins; otherwise the document's info title, or "Untitled Contract" when it has none |
| OpenApiIngest.ContractOf | packages/tools/src/llm_and_me_tools/openapi_tools/openapi_to_sqlite.py:255-270 | an info that is not a dict is an unexpected error; otherwise the row holds the version, title and API version with their defaults, and is refused exactly when one of them cannot be bound |
| OpenApiIngest.ComponentsOf | packages/tools/src/llm_and_me_tools/openapi_tools/openapi_to_sqlite.py:277 | succeeds exactly when `components` and its `schemas` are each a dict or absent, otherwise the unexpected error; the result is the entries of `schemas`, or none when either level is absent |
| OpenApiIngest.PathsOf | packages/tools/src/llm_and_me_tools/openapi_tools/openapi_to_sqlite.py:340-341 | fails exactly when paths is present and not a dict; otherwise yields its entries, or none when absent |
| OpenApiIngest.Passes | packages/tools/src/llm_and_me_tools/openapi_tools/openapi_to_sqlite.py:276-337 | the component passes leave the contracts table alone |
| OpenApiIngest.Project | packages/tools/src/llm_and_me_tools/openapi_tools/openapi_to_sqlite.py:339-532 | a paths field that is not a dict raises; otherwise the paths loop runs on its entries; contracts are untouched |
| OpenApiIngest.Build | packages/tools/src/llm_and_me_tools/openapi_tools/openapi_to_sqlite.py:276-532 | success needs components and paths to be dicts, and leaves the contracts alone |
| OpenApiIngest.Ingest | packages/tools/src/llm_and_me_tools/openapi_tools/openapi_to_sqlite.py:243-541 | a successful save adds exactly one contract row, with the next id and the document's row values, and needs components and paths to be dicts |
| OpenApiIngest.Pass2KeepsInv | packages/tools/src/llm_and_me_tools/openapi_tools/openapi_to_sqlite.py:310-337 | pass 2 keeps the invariant and writes no row |
| OpenApiIngest.PassesKeepInv | packages/tools/src/llm_and_me_tools/openapi_tools/openapi_to_sqlite.py:276-337 | the two component passes keep the invariant and only extend the tables |
| OpenApiIngest.BuildKeepsInv | packages/tools/src/llm_and_me_tools/openapi_tools/openapi_to_sqlite.py:276-532 | everything after the contract row keeps the invariant and only extends the tables |
| OpenApiIngest.FreshContract | packages/tools/src/llm_and_me_tools/openapi_tools/openapi_to_sqlite.py:247-271 | after the contract insert, with empty caches, the invariant holds and no existing schema row belongs to the new contract |
| OpenApiIngest.IngestKeepsValid | packages/tools/src/llm_and_me_tools/openapi_tools/openapi_to_sqlite.py:243-533 | a save keeps the database valid and only appends: every earlier row of every table is still there, unchanged |
| OpenApiIngest.IngestEndpoints | packages/tools/src/llm_and_me_tools/openapi_tools/openapi_to_sqlite.py:339-371 | the endpoint rows a save adds are exactly the operations of paths, verb upper-cased, in iteration order, and no two share a path and verb |
| OpenApiIngest.RepeatedVerbRollsBack | packages/tools/src/llm_and_me_tools/openapi_tools/openapi_to_sqlite.py:57-71 | a path item with two verb keys that differ only in case makes the whole save fail, so it is rolled back |
| OpenApiIngest.NamedRowsSurvive | packages/tools/src/llm_and_me_tools/openapi_tools/openapi_to_sqlite.py:339-532 | later steps never touch a row with a ref path, so pass 1's naming survives |
| OpenApiIngest.DefinitionsSurvive | packages/tools/src/llm_and_me_tools/openapi_tools/openapi_to_sqlite.py:276-308 | the row each definition points at after pass 1 is still there, named, at the end |
| OpenApiIngest.BuildNamesComponents | packages/tools/src/llm_and_me_tools/openapi_tools/openapi_to_sqlite.py:276-532 | in a fresh contract pass 1's naming of rows reaches the end of the transaction |
| OpenApiIngest.IngestNamesComponents | packages/tools/src/llm_and_me_tools/openapi_tools/openapi_to_sqlite.py:276-308 | in the committed schemas of the new contract every row with a ref path is the first definition with its text, under that definition's name and path, and every definition's text sits in such a row |
| OpenApiTransaction.Transaction.constructor | packages/tools/src/llm_and_me_tools/openapi_tools/openapi_to_sqlite.py:242-252 | the transaction starts from the committed tables with both caches empty |
| OpenApiTransaction.Transaction.Store | packages/tools/src/llm_and_me_tools/openapi_tools/openapi_to_sqlite.py:118-211 | updates the working tables and the content cache in place to exactly what StoreSchema specifies, and returns its id |
| OpenApiTransaction.Transaction.Resolve | packages/tools/src/llm_and_me_tools/openapi_tools/openapi_to_sqlite.py:389-411 | resolves a schema field in place as ResolveSchema specifies, returning the schema id or the exception |
| OpenApiTransaction.Transaction.StoreComponent | packages/tools/src/llm_and_me_tools/openapi_tools/openapi_to_sqlite.py:278-308 | one iteration of pass 1 leaves the state Pass1Step specifies |
| OpenApiTransaction.Transaction.StoreComponents | packages/tools/src/llm_and_me_tools/openapi_tools/openapi_to_sqlite.py:277-308 | the pass 1 loop leaves exactly the state of the fold Pass1 |
| OpenApiTransaction.Transaction.ResolveAlias | packages/tools/src/llm_and_me_tools/openapi_tools/openapi_to_sqlite.py:311-337 | one iteration of pass 2 reaches Pass2Step's state or raises its exception |
| OpenApiTransaction.Transaction.ResolveAliases | packages/tools/src/llm_and_me_tools/openapi_tools/openapi_to_sqlite.py:310-337 | the pass 2 loop reaches Pass2's state, or stops with its first exception |
| OpenApiTransaction.Transaction.SaveParameter | packages/tools/src/llm_and_me_tools/openapi_tools/openapi_to_sqlite.py:386-424 | one parameter reaches ParamStep's state or raises its exception |
| OpenApiTransaction.Transaction.SaveParameters | packages/tools/src/llm_and_me_tools/openapi_tools/openapi_to_sqlite.py:386-424 | the parameter loop reaches Params's state or stops with its first exception |
| OpenApiTransaction.Transaction.SaveBodyMedia | packages/tools/src/llm_and_me_tools/openapi_tools/openapi_to_sqlite.py:433-470 | one request-body content entry reaches BodyStep's state or raises its exception |
| OpenApiTransaction.Transaction.SaveBodyMedias | packages/tools/src/llm_and_me_tools/openapi_tools/openapi_to_sqlite.py:433-470 | the request-body content loop reaches Bodies's state or stops with its first exception |
| OpenApiTransaction.Transaction.SaveRequestBody | packages/tools/src/llm_and_me_tools/openapi_tools/openapi_to_sqlite.py:426-470 | the request-body branch reaches RequestBody's state or raises its exception |
| OpenApiTransaction.Transaction.SaveResponseMedia | packages/tools/src/llm_and_me_tools/openapi_tools/openapi_to_sqlite.py:485-521 | one response content entry reaches MediaStep's state or raises its exception |
| OpenApiTransaction.Transaction.SaveResponseMedias | packages/tools/src/llm_and_me_tools/openapi_tools/openapi_to_sqlite.py:481-521 | the response content loop reaches Medias's state or stops with its first exception |
| OpenApiTransaction.Transaction.SaveResponse | packages/tools/src/llm_and_me_tools/openapi_tools/openapi_to_sqlite.py:475-532 | one response reaches ResponseStep's state or raises its exception |
| OpenApiTransaction.Transaction.SaveResponses | packages/tools/src/llm_and_me_tools/openapi_tools/openapi_to_sqlite.py:472-532 | the responses loop reaches Responses's state or stops with its first exception |
| OpenApiTransaction.Transaction.SaveEndpointChildren | packages/tools/src/llm_and_me_tools/openapi_tools/openapi_to_sqlite.py:380-532 | the children of an endpoint reach EndpointChildren's state or raise its exception |
| OpenApiTransaction.Transaction.SaveOperation | packages/tools/src/llm_and_me_tools/openapi_tools/openapi_to_sqlite.py:344-532 | one path-item entry reaches OperationStep's state or raises its exception |
| OpenApiTransaction.Transaction.SaveOperations | packages/tools/src/llm_and_me_tools/openapi_tools/openapi_to_sqlite.py:344-532 | the loop over a path item reaches Operations's state or stops with its first exception |
| OpenApiTransaction.Transaction.SavePaths | packages/tools/src/llm_and_me_tools/openapi_tools/openapi_to_sqlite.py:340-532 | the loop over paths reaches Paths's state or stops with its first exception |
| OpenApiTransaction.Transaction.Run | packages/tools/src/llm_and_me_tools/openapi_tools/openapi_to_sqlite.py:254-533 | the body of the try returns the new contract id with the working tables Ingest specifies, or Ingest's exception |
| OpenApiTransaction.OutcomeOf | packages/tools/src/llm_and_me_tools/openapi_tools/openapi_to_sqlite.py:533-541 | the save succeeds exactly when the transaction does, reporting the new contract id; an SQLite error is reported as such, any other exception as unexpected |
| OpenApiTransaction.Database.constructor | packages/tools/src/llm_and_me_tools/openapi_tools/openapi_to_sqlite.py:24-115 | a new database holds empty tables and is consistent |
| OpenApiTransaction.Database.Save | packages/tools/src/llm_and_me_tools/openapi_tools/openapi_to_sqlite.py:214-543 | a document that is not a dict is refused before connecting; otherwise a success commits exactly Ingest's tables and any exception keeps the committed tables (rollback); the database stays consistent |
| OpenApiTree.NonEmpty | packages/tools/src/llm_and_me_tools/openapi_tools/openapi_to_tree.py:11 | keeps only non-empty pieces, each one of the original pieces |
| OpenApiTree.Segments | packages/tools/src/llm_and_me_tools/openapi_tools/openapi_to_tree.py:11 | every segment is non-empty and holds no slash |
| OpenApiTree.NonEmptyAppend | packages/tools/src/llm_and_me_tools/openapi_tools/openapi_to_tree.py:11 | filtering empty pieces distributes over concatenation |
| OpenApiTree.SegmentsOfEmpty | packages/tools/src/llm_and_me_tools/openapi_tools/openapi_to_tree.py:11 | the empty path has no segments |
| OpenApiTree.SegmentsSplit | packages/tools/src/llm_and_me_tools/openapi_tools/openapi_to_tree.py:11 | the segments of a/b are those of a followed by those of b |
| OpenApiTree.SlashesIgnored | packages/tools/src/llm_and_me_tools/openapi_tools/openapi_to_tree.py:11 | leading, trailing and doubled slashes do not change the segments |
| OpenApiTree.LeadingSlash | packages/tools/src/llm_and_me_tools/openapi_tools/openapi_to_tree.py:11 | a leading slash does not change the segments |
| OpenApiTree.SegmentsJoin | packages/tools/src/llm_and_me_tools/openapi_tools/openapi_to_tree.py:11 | joining non-empty slash-free segments with slashes gives back the same segments |
| OpenApiTree.Find | packages/tools/src/llm_and_me_tools/openapi_tools/openapi_to_tree.py:14 | finds the first entry with the key path, and nothing exactly when there is none |
| OpenApiTree.Prune | packages/tools/src/llm_and_me_tools/openapi_tools/openapi_to_tree.py:18 | dropping a subtree never adds entries |
| OpenApiTree.LookupAppend | packages/tools/src/llm_and_me_tools/openapi_tools/openapi_to_tree.py:15 | appending an entry adds its key and changes no existing key |
| OpenApiTree.LookupUpdate | packages/tools/src/llm_and_me_tools/openapi_tools/openapi_to_tree.py:18 | updating an entry in place changes only that key |
| OpenApiTree.LookupPrune | packages/tools/src/llm_and_me_tools/openapi_tools/openapi_to_tree.py:18 | pruning forgets exactly the keys strictly below the pruned node |
| OpenApiTree.PruneEntries | packages/tools/src/llm_and_me_tools/openapi_tools/openapi_to_tree.py:18 | the surviving entries are original entries outside the subtree, and unique keys stay unique |
| OpenApiTree.LeafKey | packages/tools/src/llm_and_me_tools/openapi_tools/openapi_to_tree.py:18 | the leaf key is the upper-cased key inside square brackets |
| OpenApiTree.MethodKeys | packages/tools/src/llm_and_me_tools/openapi_tools/openapi_to_tree.py:17 | a dict is iterated by its keys in order; null, booleans and numbers cannot be iterated |
| OpenApiTree.ApiTree | packages/tools/src/llm_and_me_tools/openapi_tools/openapi_to_tree.py:6-19 | a document without paths gives the empty tree |
| OpenApiTree.TreeFromContent | packages/tools/src/llm_and_me_tools/openapi_tools/openapi_to_tree.py:22-55 | an unsupported content type, a parse failure, a non-dict document and a missing paths section are each reported as such, exactly in those cases; otherwise the tree of the document |
| OpenApiTree.ApiTreeErrors | packages/tools/src/llm_and_me_tools/openapi_tools/openapi_to_tree.py:6-19 | the tree builder itself only ever raises a TypeError or AttributeError |
| OpenApiTree.BuildTreeErrors | packages/tools/src/llm_and_me_tools/openapi_tools/openapi_to_tree.py:10-18 | the loop over paths only ever raises |
| OpenApiTree.DescendErrors | packages/tools/src/llm_and_me_tools/openapi_tools/openapi_to_tree.py:13-16 | the segment walk only ever raises |
| OpenApiTree.ValidAppend | packages/tools/src/llm_and_me_tools/openapi_tools/openapi_to_tree.py:14-15 | adding a new key below a dict keeps the tree a nested dict |
| OpenApiTree.ValidMarkExisting | packages/tools/src/llm_and_me_tools/openapi_tools/openapi_to_tree.py:18 | replacing a dict by None and dropping its subtree leaves a nested dict |
| OpenApiTree.ParentSurvives | packages/tools/src/llm_and_me_tools/openapi_tools/openapi_to_tree.py:18 | an entry outside the replaced subtree still hangs below a dict |
| OpenApiTree.KeepsAppend | packages/tools/src/llm_and_me_tools/openapi_tools/openapi_to_tree.py:14-15 | appending an entry keeps every existing key's value |
| OpenApiTree.DescendStepValid | packages/tools/src/llm_and_me_tools/openapi_tools/openapi_to_tree.py:14-16 | a walk step keeps the tree a nested dict |
| OpenApiTree.DescendStepLookups | packages/tools/src/llm_and_me_tools/openapi_tools/openapi_to_tree.py:14-16 | a walk step changes no existing entry and moves the cursor one level down onto a dict, or stops at a None |
| OpenApiTree.AllBranchesExtend | packages/tools/src/llm_and_me_tools/openapi_tools/openapi_to_tree.py:13-16 | a walk that reached a dict through dicts extends the chain of dicts by one |
| OpenApiTree.KeepsTransitive | packages/tools/src/llm_and_me_tools/openapi_tools/openapi_to_tree.py:13-16 | keeping every existing key is transitive |
| OpenApiTree.DescendLookups | packages/tools/src/llm_and_me_tools/openapi_tools/openapi_to_tree.py:13-16 | the whole walk changes no existing entry, and a walk that ends on a dict ends on the path's node with every prefix a dict |
| OpenApiTree.CursorIsDict | packages/tools/src/llm_and_me_tools/openapi_tools/openapi_to_tree.py:13-16 | a cursor the walk produced is the path's own node and points at a dict |
| OpenApiTree.DescendValid | packages/tools/src/llm_and_me_tools/openapi_tools/openapi_to_tree.py:13-16 | the whole walk keeps the tree a nested dict |
| OpenApiTree.MarkStepValid | packages/tools/src/llm_and_me_tools/openapi_tools/openapi_to_tree.py:18 | marking a leaf keeps the tree a nested dict |
| OpenApiTree.MarkStepLookups | packages/tools/src/llm_and_me_tools/openapi_tools/openapi_to_tree.py:18 | marking makes the key a leaf and touches nothing outside that key's subtree |
| OpenApiTree.MarkAllLookups | packages/tools/src/llm_and_me_tools/openapi_tools/openapi_to_tree.py:17-18 | after the loop every key is a leaf at the node, and nothing outside the node's subtree changes |
| OpenApiTree.MarkAllValid | packages/tools/src/llm_and_me_tools/openapi_tools/openapi_to_tree.py:17-18 | marking every key keeps the tree a nested dict |
| OpenApiTree.InsertPathValid | packages/tools/src/llm_and_me_tools/openapi_tools/openapi_to_tree.py:10-18 | one path item keeps the tree a nested dict |
| OpenApiTree.InsertPathKeeps | packages/tools/src/llm_and_me_tools/openapi_tools/openapi_to_tree.py:10-18 | one path item keeps every key outside the path's own node, so existing nodes are reused, never replaced |
| OpenApiTree.InsertPathLeaves | packages/tools/src/llm_and_me_tools/openapi_tools/openapi_to_tree.py:10-18 | after a path item with keys, the path's segments are nested dicts and each key is a leaf at the path's node |
| OpenApiTree.SegmentsOfSlash | packages/tools/src/llm_and_me_tools/openapi_tools/openapi_to_tree.py:11 | the path / has no segments |
| OpenApiTree.RootPath | packages/tools/src/llm_and_me_tools/openapi_tools/openapi_to_tree.py:10-18 | the keys of the path / become leaves of the root dict |
| OpenApiTree.NoSegmentsLeaves | packages/tools/src/llm_and_me_tools/openapi_tools/openapi_to_tree.py:10-18 | a path without segments puts its keys as leaves of the root dict |
| OpenApiTree.BuildTreeValid | packages/tools/src/llm_and_me_tools/openapi_tools/openapi_to_tree.py:10-18 | the loop over the path items keeps the tree a nested dict |
| OpenApiTree.ApiTreeValid | packages/tools/src/llm_and_me_tools/openapi_tools/openapi_to_tree.py:6-19 | whatever the document, a built tree is a nested dict with one node per key path |
| OpenApiTree.WalkSegments | packages/tools/src/llm_and_me_tools/openapi_tools/openapi_to_tree.py:13-16 | the segment loop computes exactly the walk Descend specifies |
| OpenApiTree.MarkLeaves | packages/tools/src/llm_and_me_tools/openapi_tools/openapi_to_tree.py:17-18 | the leaf loop computes exactly MarkAll |
| OpenApiTree.AddPath | packages/tools/src/llm_and_me_tools/openapi_tools/openapi_to_tree.py:11-18 | one iteration over paths computes exactly InsertPath |
| OpenApiTree.GenerateApiTree | packages/tools/src/llm_and_me_tools/openapi_tools/openapi_to_tree.py:6-19 | the method computes exactly ApiTree |
| DescendantTeams.TagMapStepKeys | packages/tools/src/llm_and_me_tools/cortex_tools/get_descendent_teams.py:106-115 | one teams entry adds its own tag exactly when it qualifies, and removes none |
| DescendantTeams.TagMapStepValue | packages/tools/src/llm_and_me_tools/cortex_tools/get_descendent_teams.py:114-115 | a qualifying entry's tag gets its id and name; every other tag keeps what it had |
| DescendantTeams.TagMapLast | packages/tools/src/llm_and_me_tools/cortex_tools/get_descendent_teams.py:106-123 | the map of all entries is the map of all but the last, extended by the last |
| DescendantTeams.HasEntryLast | packages/tools/src/llm_and_me_tools/cortex_tools/get_descendent_teams.py:106-115 | some entry qualifies for a tag exactly when one before the last does or the last does |
| DescendantTeams.TagMapKeys | packages/tools/src/llm_and_me_tools/cortex_tools/get_descendent_teams.py:103-123 | a tag is in the map exactly when some entry has it with a truthy tag, name and id |
| DescendantTeams.TagMapLastWins | packages/tools/src/llm_and_me_tools/cortex_tools/get_descendent_teams.py:114-115 | a tag maps to the id and name of the last entry that has it: later entries overwrite earlier ones |
| DescendantTeams.LastEntryExtends | packages/tools/src/llm_and_me_tools/cortex_tools/get_descendent_teams.py:106-115 | the last entry for a tag stays the last when a later entry does not have it |
| DescendantTeams.TagMapStop | packages/tools/src/llm_and_me_tools/cortex_tools/get_descendent_teams.py:106-123 | once an entry raises, the rest of the loop is not reached |
| DescendantTeams.CreateTagToTeamMap | packages/tools/src/llm_and_me_tools/cortex_tools/get_descendent_teams.py:103-123 | the loop builds exactly the map TagMap specifies, or raises its first exception |
| DescendantTeams.ChildrenOf | packages/tools/src/llm_and_me_tools/cortex_tools/get_descendent_teams.py:148-151 | a tag is listed as a child of a parent exactly when an edge joins them |
| DescendantTeams.NoChildren | packages/tools/src/llm_and_me_tools/cortex_tools/get_descendent_teams.py:148-151 | a tag that is nobody's parent has no children |
| DescendantTeams.AdjacencyAt | packages/tools/src/llm_and_me_tools/cortex_tools/get_descendent_teams.py:147-151 | a tag has an adjacency entry exactly when it is the parent on some edge, listing its children in edge order |
| DescendantTeams.BuildAdjacency | packages/tools/src/llm_and_me_tools/cortex_tools/get_descendent_teams.py:147-151 | the loop over the edges builds exactly the adjacency Adjacency specifies |
| DescendantTeams.DescendsStep | packages/tools/src/llm_and_me_tools/cortex_tools/get_descendent_teams.py:166-167 | a child of a tag reached from the top lies below the top |
| DescendantTeams.ClosedHoldsDescendants | packages/tools/src/llm_and_me_tools/cortex_tools/get_descendent_teams.py:158-196 | a set holding the top tag and closed under children holds every tag below the top |
| DescendantTeams.PathInClosed | packages/tools/src/llm_and_me_tools/cortex_tools/get_descendent_teams.py:158-196 | every tag on a chain of edges starting in a closed set is in the set |
| DescendantTeams.VisitChildren | packages/tools/src/llm_and_me_tools/cortex_tools/get_descendent_teams.py:166-196 | the inner loop queues the unprocessed children in order and adds exactly one record per unprocessed child, named from the map; a child missing from the map raises, and it lies below the top |
| DescendantTeams.ChildInUniverse | packages/tools/src/llm_and_me_tools/cortex_tools/get_descendent_teams.py:196 | every queued child is the top tag or a child on an edge |
| DescendantTeams.PopProcessed | packages/tools/src/llm_and_me_tools/cortex_tools/get_descendent_teams.py:159-162 | taking an already processed tag off the queue keeps the search invariant |
| DescendantTeams.QueueInUniverse | packages/tools/src/llm_and_me_tools/cortex_tools/get_descendent_teams.py:196 | after an expansion the queue still holds only the top tag or children on edges |
| DescendantTeams.PopNew | packages/tools/src/llm_and_me_tools/cortex_tools/get_descendent_teams.py:159-163 | taking a new tag off the queue and marking it processed keeps the search invariant |
| DescendantTeams.ClosedAfterVisit | packages/tools/src/llm_and_me_tools/cortex_tools/get_descendent_teams.py:163-196 | after the children of the current tag are queued, every child of a processed tag is processed or queued |
| DescendantTeams.ExpandedBeforeAppend | packages/tools/src/llm_and_me_tools/cortex_tools/get_descendent_teams.py:158-196 | a tag expanded before another stays so when a new tag is expanded |
| DescendantTeams.ExpectedAfterVisit | packages/tools/src/llm_and_me_tools/cortex_tools/get_descendent_teams.py:166-196 | expanding the current tag adds exactly the records for edges out of it into tags not yet expanded |
| DescendantTeams.Expand | packages/tools/src/llm_and_me_tools/cortex_tools/get_descendent_teams.py:159-196 | one turn of the queue loop marks the tag processed, queues its unprocessed children and keeps the invariant, or raises for a child missing from the map |
| DescendantTeams.SearchDone | packages/tools/src/llm_and_me_tools/cortex_tools/get_descendent_teams.py:158-196 | with the queue empty the expanded tags are exactly those reached from the top, and every tag below the top has a record |
| DescendantTeams.Search | packages/tools/src/llm_and_me_tools/cortex_tools/get_descendent_teams.py:153-196 | the queue loop yields the records for every tag below the top (one per edge from a parent expanded earlier, named from the map), or fails exactly at a reached tag missing from the map |
| DescendantTeams.MinimumExists | packages/tools/src/llm_and_me_tools/cortex_tools/get_descendent_teams.py:200 | a non-empty set of records has one whose tag no other tag precedes |
| DescendantTeams.SortByTag | packages/tools/src/llm_and_me_tools/cortex_tools/get_descendent_teams.py:200 | the sorted list holds every record exactly once, ordered by tag |
| DescendantTeams.GetDescendantTeams | packages/tools/src/llm_and_me_tools/cortex_tools/get_descendent_teams.py:127-200 | succeeds exactly when every tag below the top is in the map; the records' tags are exactly the tags one or more edges below the top, the top itself excluded even on a cycle; each record's parent has an edge into it and its id and name come from the map; the list is sorted by tag |
| TeamComponents.RelevantTags | packages/tools/src/llm_and_me_tools/cortex_tools/get_team_components.py:79-80 | the relevant tags are exactly the top tag and the tags of the descendants |
| TeamComponents.OwnedIndices | packages/tools/src/llm_and_me_tools/cortex_tools/get_team_components.py:89-96 | lists, in increasing order, exactly the positions of the components a relevant team owns |
| TeamComponents.KeptInOrder | packages/tools/src/llm_and_me_tools/cortex_tools/get_team_components.py:88-96 | the kept list is the owned components at their positions, in listed order, each once |
| TeamComponents.KeptMembers | packages/tools/src/llm_and_me_tools/cortex_tools/get_team_components.py:88-96 | a component is kept exactly when it is listed and some owning team with a non-empty tag is relevant |
| TeamComponents.OwnerTags | packages/tools/src/llm_and_me_tools/cortex_tools/get_team_components.py:91-93 | the owner tags are exactly the non-empty tags of the owning teams |
| TeamComponents.FilterComponents | packages/tools/src/llm_and_me_tools/cortex_tools/get_team_components.py:88-96 | the ownership loop keeps exactly the components Kept specifies |
| TeamComponents.GetTeamComponents | packages/tools/src/llm_and_me_tools/cortex_tools/get_team_components.py:63-96 | a top tag missing from the map is an error; success exactly when every tag below the top is in the map; then the relevant tags are exactly those reached from the top and the result is the owned components in listed order |
| TeamComponents.DocFileNameShape | packages/tools/src/llm_and_me_tools/cortex_tools/get_team_components.py:125-126 | the document file name holds no slash, keeps the tag's other characters in place and ends with _openapi.json |
| TeamComponents.DocFileNameClash | packages/tools/src/llm_and_me_tools/cortex_tools/get_team_components.py:125-126 | two tags that differ only by a slash against an underscore are saved under the same file name |
| MarkdownSplitter.HashRun | packages/tools/src/llm_and_me_tools/md_splitter.py:56-62 | the run of hashes at a position stays inside the text |
| MarkdownSplitter.SpaceRun | packages/tools/src/llm_and_me_tools/md_splitter.py:57 | the run of whitespace after the hashes stays inside the text |
| MarkdownSplitter.LineEnd | packages/tools/src/llm_and_me_tools/md_splitter.py:57 | the end of the line at a position lies between that position and the end of the text |
| MarkdownSplitter.HashRunShape | packages/tools/src/llm_and_me_tools/md_splitter.py:56-62 | the run holds only hashes and is maximal: the next character is not a hash |
| MarkdownSplitter.SpaceRunShape | packages/tools/src/llm_and_me_tools/md_splitter.py:57 | the run holds only whitespace and is maximal |
| MarkdownSplitter.LineEndShape | packages/tools/src/llm_and_me_tools/md_splitter.py:57 | the line end is the first newline at or after the position, or the end of the text |
| MarkdownSplitter.FirstHeader | packages/tools/src/llm_and_me_tools/md_splitter.py:56-58 | the search finds the first line start holding one to six hashes and whitespace, and no earlier one exists |
| MarkdownSplitter.DetectLevel | packages/tools/src/llm_and_me_tools/md_splitter.py:54-67 | a detected level lies between 1 and 6, and none is detected exactly when no line is a header of levels 1 to 6 |
| MarkdownSplitter.MatchAt | packages/tools/src/llm_and_me_tools/md_splitter.py:85-88 | a header match at a position spans the hashes, at least one whitespace character and the rest of its line, inside the text |
| MarkdownSplitter.NextHeader | packages/tools/src/llm_and_me_tools/md_splitter.py:85-88 | the next split point of the level is the first line start with exactly that many hashes and whitespace at or after the position |
| MarkdownSplitter.Headers | packages/tools/src/llm_and_me_tools/md_splitter.py:85-88 | the header matches of the level are in increasing, non-overlapping order and each one is a real match of that level |
| MarkdownSplitter.MatchesCons | packages/tools/src/llm_and_me_tools/md_splitter.py:88 | a match placed before a well-formed list of later matches keeps the list well-formed |
| MarkdownSplitter.HeadersComplete | packages/tools/src/llm_and_me_tools/md_splitter.py:85-88 | every line start with exactly the level's hashes and whitespace is a split point, unless an earlier header's whitespace ran over it |
| MarkdownSplitter.OtherLevelsStayInside | packages/tools/src/llm_and_me_tools/md_splitter.py:85-88 | a line whose hash count differs from the level never starts a section: deeper and shallower headers stay inside the section |
| MarkdownSplitter.DetectedLevelSplits | packages/tools/src/llm_and_me_tools/md_splitter.py:56-88 | when a level is detected there is at least one section, and the first one starts at the header the detection found |
| MarkdownSplitter.LineEndSkips | packages/tools/src/llm_and_me_tools/md_splitter.py:57 | two positions on the same line have the same line end |
| MarkdownSplitter.HeaderOnOneLine | packages/tools/src/llm_and_me_tools/md_splitter.py:85 | a header whose whitespace stays on its line ends at that line's end |
| MarkdownSplitter.SectionEnd | packages/tools/src/llm_and_me_tools/md_splitter.py:96-100 | each section ends at or after its own header and within the text: at the next header or the end of the text |
| MarkdownSplitter.SectionHashes | packages/tools/src/llm_and_me_tools/md_splitter.py:92-111 | the hashes written back into each file are exactly the level's number of hash characters |
| MarkdownSplitter.ReplaceUnsafe | packages/tools/src/llm_and_me_tools/md_splitter.py:104 | every character outside word characters, hyphen, dot and space becomes an underscore, the rest stay in place |
| MarkdownSplitter.SeparatorRun | packages/tools/src/llm_and_me_tools/md_splitter.py:106 | the leading run of underscores and spaces is maximal |
| MarkdownSplitter.CollapseShape | packages/tools/src/llm_and_me_tools/md_splitter.py:106 | collapsing keeps emptiness, leaves no space and no two adjacent underscores, and every character is an underscore or comes from the input |
| MarkdownSplitter.SolidOfRun | packages/tools/src/llm_and_me_tools/md_splitter.py:106 | a leading run of separators does not change the non-separator characters |
| MarkdownSplitter.CollapseKeepsSolid | packages/tools/src/llm_and_me_tools/md_splitter.py:106 | collapsing keeps every non-separator character, in order |
| MarkdownSplitter.CollapseFixed | packages/tools/src/llm_and_me_tools/md_splitter.py:106 | text without spaces or doubled underscores is unchanged by collapsing |
| MarkdownSplitter.SanitizeShape | packages/tools/src/llm_and_me_tools/md_splitter.py:104-106 | a sanitised name holds only word characters, hyphens and dots, with no two adjacent underscores |
| MarkdownSplitter.SanitizeIdempotent | packages/tools/src/llm_and_me_tools/md_splitter.py:104-106 | sanitising a sanitised name changes nothing |
| MarkdownSplitter.FileNameStaysInside | packages/tools/src/llm_and_me_tools/md_splitter.py:104-108 | the file name holds no slash and its path starts with the output directory |
| MarkdownSplitter.Summary | packages/tools/src/llm_and_me_tools/md_splitter.py:121-126 | with messages and no failed write the summary starts with the completion prefix |
| MarkdownSplitter.JoinHead | packages/tools/src/llm_and_me_tools/md_splitter.py:122-126 | joining messages starts with the first message's first character |
| MarkdownSplitter.SummaryReportsFailure | packages/tools/src/llm_and_me_tools/md_splitter.py:121-122 | when a write failed the summary does not start with the completion prefix |
| MarkdownSplitter.SummaryAgrees | packages/tools/src/llm_and_me_tools/md_splitter.py:121-126 | the summary as written and the summary keyed on failed writes agree whenever a message mentions "Error" exactly when a write failed |
| MarkdownSplitter.WriteErrorMentionsError | packages/tools/src/llm_and_me_tools/md_splitter.py:117-118 | every write-failure message mentions "Error" |
| MarkdownSplitter.ErrorMentionLosesPrefix | packages/tools/src/llm_and_me_tools/md_splitter.py:121-126 | as written, any message mentioning "Error" drops the completion prefix even though no write failed |
| MarkdownSplitter.ErrorTitleLosesPrefix | packages/tools/src/llm_and_me_tools/md_splitter.py:104-126 | on `# Error\nbody` the detected level is 1 and the plan is the single file ./Error.md; with no write failing, the code's summary of the run's messages has no completion prefix while the corrected one has it |
| MarkdownSplitter.ErrorTitleRun | packages/tools/src/llm_and_me_tools/md_splitter.py:104-126 | SplitMarkdown on `# Error\nbody` with no output directory given (so the current one, which exists) and every write succeeding returns a summary with the completion prefix, while the code's summary of the same messages has none |
| MarkdownSplitter.ErrorName | packages/tools/src/llm_and_me_tools/md_splitter.py:104-107 | the title "Error" is saved as Error.md |
| MarkdownSplitter.ResolveContent | packages/tools/src/llm_and_me_tools/md_splitter.py:27-43 | given content wins over the input file; with neither the no-input error is returned |
| MarkdownSplitter.Planned | packages/tools/src/llm_and_me_tools/md_splitter.py:91-111 | one file per section, in order, at the directory joined with the sanitised title, holding the header line, a blank line and the section body |
| MarkdownSplitter.FileMessages | packages/tools/src/llm_and_me_tools/md_splitter.py:113-118 | one message per planned file |
| MarkdownSplitter.WriteStep | packages/tools/src/llm_and_me_tools/md_splitter.py:113-118 | one more file extends the written files and the messages by that file's outcome only |
| MarkdownSplitter.FailedStep | packages/tools/src/llm_and_me_tools/md_splitter.py:117-118 | the files seen so far hold a failed write exactly when the earlier ones did or this one fails |
| MarkdownSplitter.WriteSections | packages/tools/src/llm_and_me_tools/md_splitter.py:91-118 | the loop writes exactly the planned files whose write succeeds, in order, gives one message per file and reports whether any write failed |
| MarkdownSplitter.SplitMarkdown | packages/tools/src/llm_and_me_tools/md_splitter.py:7-126 | each error path returns its message and writes nothing; otherwise the planned files are written in order and the summary carries the completion prefix exactly when no write failed |
| ApiKeySelector.KeyForShape | packages/tools/src/llm_and_me_tools/newrelic_tools/api_key_selector.py:44-58 | a variable matches an account exactly when it is the prefix, a non-empty ORDER and _FOR_ followed by the upper-cased account |
| ApiKeySelector.FirstKey | packages/tools/src/llm_and_me_tools/newrelic_tools/api_key_selector.py:47-62 | the search result, when there is one, is a position in the environment at or after the start |
| ApiKeySelector.FirstKeyFirst | packages/tools/src/llm_and_me_tools/newrelic_tools/api_key_selector.py:47-62 | the search finds the first matching variable, or reports that none matches |
| ApiKeySelector.ApiKey | packages/tools/src/llm_and_me_tools/newrelic_tools/api_key_selector.py:38-42 | the empty-account error is returned exactly when the account is empty or blank |
| ApiKeySelector.ApiKeyFirstMatch | packages/tools/src/llm_and_me_tools/newrelic_tools/api_key_selector.py:47-68 | a key returned is the value of the first matching variable in environment order; not-found is returned exactly when the account is not blank and no variable matches |
| ApiKeySelector.ApiKeyIgnoresCase | packages/tools/src/llm_and_me_tools/newrelic_tools/api_key_selector.py:37-44 | any two accounts equal up to case give the same result, blank accounts included |
| ApiKeySelector.FirstKeySame | packages/tools/src/llm_and_me_tools/newrelic_tools/api_key_selector.py:44-50 | the search is the same for two accounts with the same upper-case form |
| ApiKeySelector.GetNewRelicApiKey | packages/tools/src/llm_and_me_tools/newrelic_tools/api_key_selector.py:13-68 | the loop over the environment returns what ApiKey specifies |
| ApiKeySelector.DropUnderscores | packages/tools/src/llm_and_me_tools/newrelic_tools/api_key_selector.py:102-104 | removing the underscores from digits and underscores leaves only digits |
| ApiKeySelector.DropNoUnderscores | packages/tools/src/llm_and_me_tools/newrelic_tools/api_key_selector.py:102-104 | a run of digits has no underscore to remove |
| ApiKeySelector.ParseIntRoundTrip | packages/tools/src/llm_and_me_tools/newrelic_tools/api_key_selector.py:102-104 | int() reads back the decimal text of every natural number |
| ApiKeySelector.ParseIntDigits | packages/tools/src/llm_and_me_tools/newrelic_tools/api_key_selector.py:102-104 | a plain run of digits reads as its decimal value |
| ApiKeySelector.ParseDigitsPlain | packages/tools/src/llm_and_me_tools/newrelic_tools/api_key_selector.py:102-104 | a plain run of digits is accepted without signs or underscores |
| ApiKeySelector.Entry | packages/tools/src/llm_and_me_tools/newrelic_tools/api_key_selector.py:90-108 | a variable contributes at most one entry |
| ApiKeySelector.EntryShape | packages/tools/src/llm_and_me_tools/newrelic_tools/api_key_selector.py:91-105 | a qualifying variable is the prefix, a non-empty ORDER without _FOR_ that int() reads as the entry's order, _FOR_, and the entry's non-empty account verbatim |
| ApiKeySelector.Entries | packages/tools/src/llm_and_me_tools/newrelic_tools/api_key_selector.py:86-108 | the entries are at most one per variable, in environment order |
| ApiKeySelector.InsertByOrder | packages/tools/src/llm_and_me_tools/newrelic_tools/api_key_selector.py:111 | inserting adds exactly one element |
| ApiKeySelector.SortByOrder | packages/tools/src/llm_and_me_tools/newrelic_tools/api_key_selector.py:111 | sorting keeps the length |
| ApiKeySelector.WithOrderAppend | packages/tools/src/llm_and_me_tools/newrelic_tools/api_key_selector.py:111 | selecting the entries with a given order distributes over concatenation |
| ApiKeySelector.InsertAddsOne | packages/tools/src/llm_and_me_tools/newrelic_tools/api_key_selector.py:111 | inserting adds exactly the new entry to the multiset |
| ApiKeySelector.InsertKeepsSorted | packages/tools/src/llm_and_me_tools/newrelic_tools/api_key_selector.py:111 | inserting into a list sorted by order keeps it sorted |
| ApiKeySelector.InsertKeepsOrderOfEquals | packages/tools/src/llm_and_me_tools/newrelic_tools/api_key_selector.py:111 | insertion places the new entry after every entry with the same order (a stable sort) |
| ApiKeySelector.SortByOrderCorrect | packages/tools/src/llm_and_me_tools/newrelic_tools/api_key_selector.py:111 | the sort is ascending by order, a permutation of its input, and keeps entries with equal orders in input order |
| ApiKeySelector.CollectEntries | packages/tools/src/llm_and_me_tools/newrelic_tools/api_key_selector.py:86-108 | the loop over the environment collects exactly the entries Entries specifies |
| ApiKeySelector.AccountsOf | packages/tools/src/llm_and_me_tools/newrelic_tools/api_key_selector.py:114 | the comprehension keeps exactly the account part of each entry, in order |
| ApiKeySelector.GetSortedAccounts | packages/tools/src/llm_and_me_tools/newrelic_tools/api_key_selector.py:71-114 | the listing is the account parts of the sorted entries |
| ApiKeySelector.SortedAccountsListing | packages/tools/src/llm_and_me_tools/newrelic_tools/api_key_selector.py:86-114 | the listing has one account per qualifying variable, taken from a sorted permutation of the entries |
| ApmEntitySelection.Output | packages/tools/src/llm_and_me_tools/newrelic_tools/get_apm_entity_by_tag.py:121-130 | the returned entity carries every field of the search result unchanged |
| ApmEntitySelection.FirstPreferred | packages/tools/src/llm_and_me_tools/newrelic_tools/get_apm_entity_by_tag.py:136-141 | the search finds the first entity whose lower-cased name holds a keyword, or reports that none does |
| ApmEntitySelection.SelectEntity | packages/tools/src/llm_and_me_tools/newrelic_tools/get_apm_entity_by_tag.py:103-144 | a reported errors field that is truthy is an error, exactly then; a missing link or an empty list gives no entity; otherwise the choice among the results |
| ApmEntitySelection.SelectFrom | packages/tools/src/llm_and_me_tools/newrelic_tools/get_apm_entity_by_tag.py:117-144 | no results give no entity, a single result is returned as it is, and several give one of the results |
| ApmEntitySelection.SeveralEntities | packages/tools/src/llm_and_me_tools/newrelic_tools/get_apm_entity_by_tag.py:135-144 | with several results the first one in list order with a preferred name is returned, and the first result when no name is preferred |
| ApmEntitySelection.ProductionAddsNothing | packages/tools/src/llm_and_me_tools/newrelic_tools/get_apm_entity_by_tag.py:136 | a name holding "production" holds "prod", so the third keyword never decides anything |
| ApmEntitySelection.PreferredIsLiveOrProd | packages/tools/src/llm_and_me_tools/newrelic_tools/get_apm_entity_by_tag.py:136-141 | a name is preferred exactly when its lower-cased form holds "live" or "prod" |
| GitChangeWarning.TallyLine | packages/tools/src/llm_and_me_tools/git_tools/git_change_warning.py:38-47 | a line with fewer than three tab-separated fields is skipped; more than three fails the unpacking, exactly then; exactly three counts one more file and adds the values of its two count columns, a non-digit column adding nothing |
| GitChangeWarning.Tally | packages/tools/src/llm_and_me_tools/git_tools/git_change_warning.py:35-48 | the file count never exceeds the number of output lines, and the line total is the sum of every file line's two count columns (ChangedLines) |
| GitChangeWarning.ColumnCountOfText | packages/tools/src/llm_and_me_tools/git_tools/git_change_warning.py:43-46 | a count column printed as a number is read back as that number, and `-` as nothing |
| GitChangeWarning.EntryFields | packages/tools/src/llm_and_me_tools/git_tools/git_change_warning.py:38-41 | a numstat line with a tab-free path splits into its two counts and its path |
| GitChangeWarning.EntryTally | packages/tools/src/llm_and_me_tools/git_tools/git_change_warning.py:38-47 | a numstat line counts one file and adds both its counts |
| GitChangeWarning.TallyOfFields | packages/tools/src/llm_and_me_tools/git_tools/git_change_warning.py:35-48 | lines that each have three fields tally to one file per line and the sum of their count columns |
| GitChangeWarning.NumstatTally | packages/tools/src/llm_and_me_tools/git_tools/git_change_warning.py:35-48 | the numstat lines of some files tally to the number of files and the sum of their counts, binary counts adding nothing |
| GitChangeWarning.DiffStatsOfNumstat | packages/tools/src/llm_and_me_tools/git_tools/git_change_warning.py:35-48 | on the newline-terminated numstat output of some files, diff_stats returns the number of files and the sum of their counts |
| GitChangeWarning.TallyFails | packages/tools/src/llm_and_me_tools/git_tools/git_change_warning.py:37-41 | the accounting fails exactly when some line has more than three tab-separated fields |
| GitChangeWarning.TallyCountsFiles | packages/tools/src/llm_and_me_tools/git_tools/git_change_warning.py:37-47 | the file count is the number of lines with exactly three fields |
| GitChangeWarning.TallyAppend | packages/tools/src/llm_and_me_tools/git_tools/git_change_warning.py:37-47 | the counts of two runs of lines add up to the counts of the joined output |
| GitChangeWarning.BinaryLine | packages/tools/src/llm_and_me_tools/git_tools/git_change_warning.py:42-47 | a binary file's line, with dashes for its counts, adds a file and no lines |
| GitChangeWarning.DiffStats | packages/tools/src/llm_and_me_tools/git_tools/git_change_warning.py:28-48 | the loop over the output's lines computes what Tally specifies |
| GitChangeWarning.EffectiveFileThreshold | packages/tools/src/llm_and_me_tools/git_tools/git_change_warning.py:58-63 | a given file threshold is kept; with a line threshold only there is no file threshold; with neither the file threshold is 8 |
| GitChangeWarning.Messages | packages/tools/src/llm_and_me_tools/git_tools/git_change_warning.py:65-74 | one reason per threshold reached, at most two |
| GitChangeWarning.CheckChangeSize | packages/tools/src/llm_and_me_tools/git_tools/git_change_warning.py:51-80 | a warning is returned exactly when the effective file threshold or the line threshold is reached, and it starts with the warning prefix |
| GitChangeWarning.WarningText | packages/tools/src/llm_and_me_tools/git_tools/git_change_warning.py:68-80 | the warning text after the prefix is the file reason, the line reason, or both joined by a comma, file reason first |
| GitChangeWarning.JoinBoth | packages/tools/src/llm_and_me_tools/git_tools/git_change_warning.py:79-80 | the warning with both reasons is the prefix, the file reason, ", " and the line reason |
| GitChangeWarning.DefaultRule | packages/tools/src/llm_and_me_tools/git_tools/git_change_warning.py:61-71 | with no thresholds a diff warns exactly when it touches at least eight files |
| GitChangeWarning.NoDefaultWithLineThreshold | packages/tools/src/llm_and_me_tools/git_tools/git_change_warning.py:61-63 | once a line threshold is given, the file count alone never warns |
| GitChangeWarning.WarningMonotone | packages/tools/src/llm_and_me_tools/git_tools/git_change_warning.py:68-74 | a diff with at least as many files and lines warns whenever a smaller one does |
| JsonToSqlite.ColumnNames | packages/tools/src/llm_and_me_tools/json_to_sqlite.py:7-14 | an object gives its keys in insertion order, exactly then; anything else exits with status 1 and the dictionary message |
| JsonToSqlite.RowsSource | packages/tools/src/llm_and_me_tools/json_to_sqlite.py:40-60 | an empty array exits with status 0, exactly then among the failures; success exactly for a non-empty object or an array headed by a non-empty object; an object is the single row, an array's rows are its items and the columns are the first object's keys |
| JsonToSqlite.CellOf | packages/tools/src/llm_and_me_tools/json_to_sqlite.py:87-92 | exactly objects and arrays are serialised, as `json.dumps` of the value; every other value passes unchanged |
| JsonToSqlite.Row | packages/tools/src/llm_and_me_tools/json_to_sqlite.py:84-93 | a tuple has one value per column |
| JsonToSqlite.RowLookup | packages/tools/src/llm_and_me_tools/json_to_sqlite.py:85-92 | a column missing from the row gives null, and a present one gives the value of its first occurrence |
| JsonToSqlite.GetFirst | packages/tools/src/llm_and_me_tools/json_to_sqlite.py:86 | a lookup finds the first field with the key |
| JsonToSqlite.RowOnlyReadsColumns | packages/tools/src/llm_and_me_tools/json_to_sqlite.py:85-92 | two rows that agree on the columns give the same tuple |
| JsonToSqlite.FirstRowInOrder | packages/tools/src/llm_and_me_tools/json_to_sqlite.py:49-93 | the object the columns came from gives back its own values in its own key order |
| JsonToSqlite.ProcessedOrSkipped | packages/tools/src/llm_and_me_tools/json_to_sqlite.py:78-93 | every row is either projected or skipped, none is lost, skipped rows are not objects, and every tuple has one value per column |
| JsonToSqlite.AllObjectsInOrder | packages/tools/src/llm_and_me_tools/json_to_sqlite.py:78-93 | when every row is an object, tuple k is the projection of row k |
| JsonToSqlite.ProjectRow | packages/tools/src/llm_and_me_tools/json_to_sqlite.py:84-93 | the inner loop builds exactly the tuple Row specifies |
| JsonToSqlite.ProjectRows | packages/tools/src/llm_and_me_tools/json_to_sqlite.py:78-93 | the outer loop builds exactly the tuples of the object rows and the skipped rows, in order |
| JsonToSqlite.Quote | packages/tools/src/llm_and_me_tools/json_to_sqlite.py:63-72 | a quoted identifier is the name between two double quotes |
| JsonToSqlite.QuoteExact | packages/tools/src/llm_and_me_tools/json_to_sqlite.py:63 | a name without a double quote is read back exactly from its quoted form |
| JsonToSqlite.QuoteEndsEarly | packages/tools/src/llm_and_me_tools/json_to_sqlite.py:63 | a name holding a double quote closes its quoted identifier before the end, since nothing is escaped |
| JsonToSqlite.QuotedColumns | packages/tools/src/llm_and_me_tools/json_to_sqlite.py:63 | one quoted name per column, in order |
| JsonToSqlite.Repeat | packages/tools/src/llm_and_me_tools/json_to_sqlite.py:75 | n copies of the marker |
| JsonToSqlite.CountAppend | packages/tools/src/llm_and_me_tools/json_to_sqlite.py:75 | marker counts add up over concatenation |
| JsonToSqlite.PlaceholderCount | packages/tools/src/llm_and_me_tools/json_to_sqlite.py:75-76 | the insert statement has exactly one parameter marker per column |
| JsonToSqlite.JsonToTable | packages/tools/src/llm_and_me_tools/json_to_sqlite.py:37-100 | a root-shape failure is returned, exactly then, with its exit; otherwise the create and insert statements over the columns, one tuple per object row in order, the skipped rows, and the inserted-count line or the no-valid-rows line |
| JsonToSqlite.ObjectRootOneRow | packages/tools/src/llm_and_me_tools/json_to_sqlite.py:51-93 | an object root loads as exactly one row holding its own values in its key order |
| Strs.SplitLines | packages/tools/src/llm_and_me_tools/git_tools/git_change_warning.py:37 | the output splits into no lines exactly when it is empty, and no line holds a line break |
| Strs.SplitLinesNoBreak | packages/tools/src/llm_and_me_tools/git_tools/git_change_warning.py:37 | a non-empty text without a line break is one line |
| Strs.SplitLinesCons | packages/tools/src/llm_and_me_tools/git_tools/git_change_warning.py:37 | a break-free line followed by "\n" or "\r\n" and a rest splits into that line followed by the lines of the rest |
| Strs.SplitLinesTerminated | packages/tools/src/llm_and_me_tools/git_tools/git_change_warning.py:37 | break-free lines, each followed by a newline, split back into exactly those lines |
| Strs.SplitOn | packages/tools/src/llm_and_me_tools/git_tools/git_change_warning.py:38 | a split gives at least one field and no field holds the separator |
| Strs.SplitOnSeparator | packages/tools/src/llm_and_me_tools/openapi_tools/openapi_to_tree.py:11 | splitting text around a separator gives the pieces of both sides |
| Strs.SplitOnce | packages/tools/src/llm_and_me_tools/newrelic_tools/api_key_selector.py:97 | a split at most once gives two parts exactly when the separator occurs: what precedes its first occurrence and what follows it; otherwise the text itself |
| Strs.Strip | packages/tools/src/llm_and_me_tools/newrelic_tools/api_key_selector.py:37 | the result is a slice of the text with only whitespace outside it, and is empty or starts and ends with a non-space character |
| Strs.StripBlank | packages/tools/src/llm_and_me_tools/newrelic_tools/api_key_selector.py:37 | a text strips to nothing exactly when it is all whitespace |
| Strs.UpperKeepsBlank | packages/tools/src/llm_and_me_tools/newrelic_tools/api_key_selector.py:37-43 | texts equal up to case are blank together |
| Strs.NatToString | packages/tools/src/llm_and_me_tools/md_splitter.py:63 | the decimal text of a number is digits without a leading zero whose value is the number |

## Left out

- Reading files and parsing YAML or JSON. Every tool receives the value its loader produced. The tree builder receives `None` when the loader raised.
- The SQLite engine. Connections, cursors, executing DDL, and the SQLite error text are not modelled. `create_tables` is represented only by its UNIQUE constraints. Warnings printed to stderr are not recorded.
- The tree text stored on the contract row (`get_openapi_path_tree_as_string`). It is not part of this model and is a parameter of the ingestion. `print_tree` is console output.
- `json.dumps`. For schema texts it is represented by the canonical value, which assumes the serialiser is injective. In `JsonToSqlite` it is an opaque parameter.
- Floating-point numbers, dates and non-string dict keys in loaded documents. `JsonValue` has integers only.
- The flattened tree in `OpenApiTree`. The nested dict is held as one entry per key path. Aliasing between the dicts the cursor walks is not modelled: one dict reached under two keys cannot occur in a freshly built tree.
- HTTP clients and pydantic validation. This covers the NerdGraph request in get_apm_entity_by_tag.py:74-101, the Cortex listings and `get_entity_docs`. The APM search results arrive as an optional entity list.
- Document fetching and saving in get_team_components.py:103-148. Only the file name a document is saved under is modelled. The returned component list does not depend on this code, because the model has no input through which it could.
- `create_tag_to_team_map`/`load_teams_data`, which get_team_components.py imports from list_teams.py. list_teams.py is not part of this model, so the tag map is a parameter.
- `_load_teams_data` and `_load_relationships_data`. The edges and the teams listing arrive already loaded.
- TeamComponents.GetTeamComponents: reports a failed descendant search as `DescendantsFailed` with the search's error. It does not model the exception text or the exit.
- The `main`/`main_cli` entry points: argument parsing, printing and exit codes. The exception is json_to_sqlite.py, whose exits are the `Exit` results.
- Case mapping (`upper`, `lower`) is ASCII-only. Python maps all of Unicode.
- `str.isdigit` and `int()` accept ASCII digits only. Python also accepts other Unicode decimal digits.
- In md_splitter.py the regex `\w` is ASCII letters, digits and underscore. Python's is Unicode.
- The order among records with equal tags after `sorted(..., key=team_tag)` is left open. Python's stable sort keeps the iteration order of a set, which is not modelled.
- The order in which the descendant search expands tags is a ghost result of `DescendantTeams.GetDescendantTeams`. It is not a value the source returns.
- Non-string tags in the teams listing. A truthy non-string tag can never be looked up by a string child tag, so the map is keyed by strings only.
- `os.path.abspath`, `os.path.dirname`, `os.path.exists`, `os.makedirs` and file writes in md_splitter.py. They are fields of the `Environment` parameter: the resolved paths, whether the directory exists, the `makedirs` error, and the error each write raises.
- md_splitter.py:39-40 (content that is not a string) cannot occur, because content is a string in this model.
- json_to_sqlite.py:23-35 (reading the file), 67 (`mkdir`) and 102-114 (SQLite errors, rollback, close). The model stops at the statements and the row tuples handed to SQLite.
- `git diff` itself, in `run` and `diff_stats`. The numstat text is a parameter.
- `os.environ` and `load_dotenv`. The environment is a parameter: its variables as (name, value) pairs in iteration order.
- MarkdownSplitter.SplitMarkdown: returns the corrected summary, which keeps the completion prefix exactly when no write failed (see Findings). The summary as written is `MarkdownSplitter.SummaryAsWritten`, and `MarkdownSplitter.SummaryAgrees` states when the two coincide.

## Findings

| source | as written | input that shows it | evidently intended | confidence | as-written member | corrected member |
|---|---|---|---|---|---|---|
| packages/tools/src/llm_and_me_tools/md_splitter.py:121-126 | The summary drops the "Markdown splitting completed." prefix whenever any message contains the text "Error". This includes a "Created file:" message whose path or section title contains "Error". | A document `# Error\nbody` with content given and no output directory. The file ./Error.md is written, yet the summary has no completion prefix. | The prefix is dropped only when a write failed. | medium, not executed | MarkdownSplitter.ErrorTitleLosesPrefix | MarkdownSplitter.SummaryReportsFailure |
