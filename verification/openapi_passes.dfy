/**
 * The two passes over `components.schemas` in save_openapi_spec_to_sqlite (openapi_to_sqlite.py).
 * Pass 1 stores every component that is a definition; pass 2 points each alias component
 * (one whose body holds a `$ref`) at the id its target already has in the ref cache.
 * Components are the (name, body) pairs of the mapping in its iteration order.
 */
module OpenApiPasses {
  import opened Wrappers
  import opened JsonValue
  import opened SchemaJson
  import opened OpenApiTables
  import opened OpenApiStore

  const SchemasPrefix: string := "#/components/schemas/"

  /** The ref path a component is registered under. */
  function ComponentRef(name: string): (r: string)
    ensures |r| == |SchemasPrefix| + |name| && r[|SchemasPrefix|..] == name
  {
    SchemasPrefix + name
  }

  /** A component pass 1 stores: a dict without a top-level `$ref`. */
  predicate IsDefinition(body: Json)
  {
    body.JObj? && !HasKey(body, "$ref")
  }

  /**
   * One iteration of pass 1: a definition is stored under its name and ref path, and the ref
   * cache learns the path unless it already has it (the first definition wins); any other
   * component is skipped.
   */
  function Pass1Step(s: St, c: nat, comp: (string, Json)): (r: St)
    ensures !IsDefinition(comp.1) ==> r == s
    ensures r.t == s.t.(schemas := r.t.schemas, nextSchema := r.t.nextSchema)
    ensures CachesGrow(s, r)
    ensures forall p :: p in r.byRef ==> p in s.byRef || p == ComponentRef(comp.0)
  {
    if !IsDefinition(comp.1) then s
    else
      var ref := ComponentRef(comp.0);
      var (s1, id) := StoreSchema(s, c, Some(comp.1), Some(comp.0), Some(ref));
      if id.Some? && ref !in s1.byRef then s1.(byRef := s1.byRef[ref := id.value]) else s1
  }

  /** Registering a ref path for a row of the contract keeps the invariant. */
  lemma RegisterKeepsInv(s: St, c: nat, p: string, id: nat, key: Json)
    requires Inv(s, c) && Holds(s.t.schemas, id, c, key)
    ensures Inv(s.(byRef := s.byRef[p := id]), c)
  {
    var i :| 0 <= i < |s.t.schemas| && s.t.schemas[i].id == id && s.t.schemas[i].contractId == c && s.t.schemas[i].content == key;
    assert OfContract(s.t.schemas, id, c);
  }

  lemma Pass1StepKeepsInv(s: St, c: nat, comp: (string, Json))
    requires Inv(s, c)
    ensures Inv(Pass1Step(s, c, comp), c) && Grows(s, Pass1Step(s, c, comp), c)
  {
    if IsDefinition(comp.1) {
      var ref := ComponentRef(comp.0);
      StoreKeepsInv(s, c, Some(comp.1), Some(comp.0), Some(ref));
      var (s1, id) := StoreSchema(s, c, Some(comp.1), Some(comp.0), Some(ref));
      if id.Some? && ref !in s1.byRef {
        RegisterKeepsInv(s1, c, ref, id.value, Canon(comp.1));
      }
    }
  }

  /** Pass 1 over the components in iteration order. */
  function Pass1(s: St, c: nat, comps: seq<(string, Json)>): (r: St)
    decreases |comps|
    ensures r.t == s.t.(schemas := r.t.schemas, nextSchema := r.t.nextSchema)
    ensures CachesGrow(s, r)
    // Pass 1 registers only ref paths of components.
    ensures forall p :: p in r.byRef ==> p in s.byRef || exists i :: 0 <= i < |comps| && p == ComponentRef(comps[i].0)
  {
    if |comps| == 0 then s
    else Pass1Step(Pass1(s, c, comps[..|comps| - 1]), c, comps[|comps| - 1])
  }

  lemma {:induction false} Pass1KeepsInv(s: St, c: nat, comps: seq<(string, Json)>)
    requires Inv(s, c)
    ensures Inv(Pass1(s, c, comps), c) && Grows(s, Pass1(s, c, comps), c)
    decreases |comps|
  {
    if |comps| > 0 {
      var s1 := Pass1(s, c, comps[..|comps| - 1]);
      Pass1KeepsInv(s, c, comps[..|comps| - 1]);
      Pass1StepKeepsInv(s1, c, comps[|comps| - 1]);
      GrowsTrans(s, s1, Pass1(s, c, comps), c);
    }
  }

  /** No earlier definition has the same sorted-key text as component `j`. */
  ghost predicate FirstWithContent(comps: seq<(string, Json)>, j: nat)
    requires j < |comps|
  {
    forall k :: 0 <= k < j && IsDefinition(comps[k].1) ==> Canon(comps[k].1) != Canon(comps[j].1)
  }

  /** The row was stored for one of the first `n` components: the first definition with its text. */
  ghost predicate NamedBy(row: SchemaRow, comps: seq<(string, Json)>, n: nat)
    requires n <= |comps|
  {
    exists j :: 0 <= j < n && IsDefinition(comps[j].1) && FirstWithContent(comps, j)
      && row.content == Canon(comps[j].1) && row.name == Some(comps[j].0)
      && row.refPath == Some(ComponentRef(comps[j].0))
  }

  /** Every schema row of contract `c` is named by one of the first `n` components. */
  ghost predicate RowsNamed(rows: seq<SchemaRow>, c: nat, comps: seq<(string, Json)>, n: nat)
    requires n <= |comps|
  {
    forall i | 0 <= i < |rows| && rows[i].contractId == c :: NamedBy(rows[i], comps, n)
  }

  /** `p` is the ref path of one of the first `n` components that is a definition. */
  ghost predicate DefinedRef(comps: seq<(string, Json)>, n: nat, p: string)
    requires n <= |comps|
  {
    exists j :: 0 <= j < n && IsDefinition(comps[j].1) && p == ComponentRef(comps[j].0)
  }

  /** The ref cache holds exactly the paths of the first `n` definitions. */
  ghost predicate RefKeys(byRef: map<string, nat>, comps: seq<(string, Json)>, n: nat)
    requires n <= |comps|
  {
    forall p :: p in byRef <==> DefinedRef(comps, n, p)
  }

  /** Each of the first `n` definitions' paths points at the row holding its text. */
  ghost predicate RefTargets(s: St, c: nat, comps: seq<(string, Json)>, n: nat)
    requires n <= |comps|
  {
    forall j | 0 <= j < n && IsDefinition(comps[j].1) ::
      ComponentRef(comps[j].0) in s.byRef && Holds(s.t.schemas, s.byRef[ComponentRef(comps[j].0)], c, Canon(comps[j].1))
  }

  /**
   * What pass 1 has built in a fresh contract after the first `n` components: every row of
   * the contract is the first definition with its text, under that definition's name and
   * ref path; the ref cache holds exactly the definitions' paths, each pointing at the row
   * holding that definition's text.
   */
  ghost predicate Pass1Shape(s: St, c: nat, comps: seq<(string, Json)>, n: nat)
    requires n <= |comps|
  {
    RowsNamed(s.t.schemas, c, comps, n) && RefKeys(s.byRef, comps, n) && RefTargets(s, c, comps, n)
  }

  lemma NamedByMore(row: SchemaRow, comps: seq<(string, Json)>, n: nat)
    requires n < |comps| && NamedBy(row, comps, n)
    ensures NamedBy(row, comps, n + 1)
  {
    var j :| 0 <= j < n && IsDefinition(comps[j].1) && FirstWithContent(comps, j)
      && row.content == Canon(comps[j].1) && row.name == Some(comps[j].0)
      && row.refPath == Some(ComponentRef(comps[j].0));
  }

  lemma RowsNamedMore(rows: seq<SchemaRow>, c: nat, comps: seq<(string, Json)>, n: nat)
    requires n < |comps| && RowsNamed(rows, c, comps, n)
    ensures RowsNamed(rows, c, comps, n + 1)
  {
    forall i | 0 <= i < |rows| && rows[i].contractId == c ensures NamedBy(rows[i], comps, n + 1) {
      NamedByMore(rows[i], comps, n);
    }
  }

  /** Registering the path of component `n`, a definition, extends the key set by that path. */
  lemma RefKeysMore(byRef: map<string, nat>, comps: seq<(string, Json)>, n: nat, id: nat)
    requires n < |comps| && RefKeys(byRef, comps, n) && IsDefinition(comps[n].1)
    ensures RefKeys(byRef[ComponentRef(comps[n].0) := id], comps, n + 1)
  {
    var m := byRef[ComponentRef(comps[n].0) := id];
    forall p ensures p in m <==> DefinedRef(comps, n + 1, p) {
      if p in byRef {
        var j :| 0 <= j < n && IsDefinition(comps[j].1) && p == ComponentRef(comps[j].0);
        assert DefinedRef(comps, n + 1, p);
      }
      if p == ComponentRef(comps[n].0) {
        assert DefinedRef(comps, n + 1, p);
      }
      if DefinedRef(comps, n + 1, p) && p != ComponentRef(comps[n].0) {
        var j :| 0 <= j < n + 1 && IsDefinition(comps[j].1) && p == ComponentRef(comps[j].0);
        assert DefinedRef(comps, n, p);
      }
    }
  }

  lemma RefKeysSkip(byRef: map<string, nat>, comps: seq<(string, Json)>, n: nat)
    requires n < |comps| && RefKeys(byRef, comps, n) && !IsDefinition(comps[n].1)
    ensures RefKeys(byRef, comps, n + 1)
  {
    forall p ensures p in byRef <==> DefinedRef(comps, n + 1, p) {
      if p in byRef {
        var j :| 0 <= j < n && IsDefinition(comps[j].1) && p == ComponentRef(comps[j].0);
        assert DefinedRef(comps, n + 1, p);
      }
      if DefinedRef(comps, n + 1, p) {
        var j :| 0 <= j < n + 1 && IsDefinition(comps[j].1) && p == ComponentRef(comps[j].0);
        assert DefinedRef(comps, n, p);
      }
    }
  }

  /** Component names are distinct, so the path of component `n` is not yet registered or held. */
  lemma Pass1FreshRef(s: St, c: nat, comps: seq<(string, Json)>, n: nat)
    requires n < |comps| && DistinctKeys(comps)
    requires RowsNamed(s.t.schemas, c, comps, n) && RefKeys(s.byRef, comps, n)
    ensures ComponentRef(comps[n].0) !in s.byRef
    ensures RefFree(s.t.schemas, c, ComponentRef(comps[n].0))
  {
    var ref := ComponentRef(comps[n].0);
    forall j | 0 <= j < n ensures ComponentRef(comps[j].0) != ref {
      assert comps[j].0 != comps[n].0;
    }
    forall i | 0 <= i < |s.t.schemas| && s.t.schemas[i].contractId == c ensures s.t.schemas[i].refPath != Some(ref) {
      var row := s.t.schemas[i];
      assert NamedBy(row, comps, n);
      var j :| 0 <= j < n && IsDefinition(comps[j].1) && FirstWithContent(comps, j)
        && row.content == Canon(comps[j].1) && row.name == Some(comps[j].0)
        && row.refPath == Some(ComponentRef(comps[j].0));
      assert comps[j].0 != comps[n].0;
    }
  }

  /** A definition whose text is cached, under a fresh path, only registers the cached row. */
  lemma Pass1StepReused(s: St, c: nat, comp: (string, Json))
    requires IsDefinition(comp.1) && Canon(comp.1) in s.byContent
    requires ComponentRef(comp.0) !in s.byRef
    requires forall i | 0 <= i < |s.t.schemas| && s.t.schemas[i].id == s.byContent[Canon(comp.1)] :: s.t.schemas[i].refPath.Some?
    ensures Pass1Step(s, c, comp) == s.(byRef := s.byRef[ComponentRef(comp.0) := s.byContent[Canon(comp.1)]])
  {
    var id := s.byContent[Canon(comp.1)];
    var t2 := Claim(s.t, id, Some(comp.0), Some(ComponentRef(comp.0)));
    assert t2.schemas == s.t.schemas;
  }

  /** A definition with new text, under a fresh path, appends its row and registers it. */
  lemma Pass1StepInserted(s: St, c: nat, comp: (string, Json))
    requires IsDefinition(comp.1) && Canon(comp.1) !in s.byContent
    requires ComponentRef(comp.0) !in s.byRef
    requires ContentFree(s.t.schemas, c, Canon(comp.1)) && RefFree(s.t.schemas, c, ComponentRef(comp.0))
    ensures Pass1Step(s, c, comp) == St(
      s.t.(schemas := s.t.schemas + [SchemaRow(s.t.nextSchema, c, Some(comp.0), Some(ComponentRef(comp.0)), Canon(comp.1))],
           nextSchema := s.t.nextSchema + 1),
      s.byContent[Canon(comp.1) := s.t.nextSchema],
      s.byRef[ComponentRef(comp.0) := s.t.nextSchema])
  {
  }

  lemma Pass1StepSkip(s: St, c: nat, comps: seq<(string, Json)>, n: nat)
    requires n < |comps| && Pass1Shape(s, c, comps, n) && !IsDefinition(comps[n].1)
    ensures Pass1Shape(Pass1Step(s, c, comps[n]), c, comps, n + 1)
  {
    RowsNamedMore(s.t.schemas, c, comps, n);
    RefKeysSkip(s.byRef, comps, n);
  }

  /** A definition whose text is already cached reuses that row, which keeps its first name. */
  lemma Pass1StepReuse(s: St, c: nat, comps: seq<(string, Json)>, n: nat)
    requires n < |comps| && Inv(s, c) && Pass1Shape(s, c, comps, n) && DistinctKeys(comps)
    requires IsDefinition(comps[n].1) && Canon(comps[n].1) in s.byContent
    ensures Pass1Shape(Pass1Step(s, c, comps[n]), c, comps, n + 1)
  {
    var rows := s.t.schemas;
    var ref := ComponentRef(comps[n].0);
    var key := Canon(comps[n].1);
    var id := s.byContent[key];
    Pass1FreshRef(s, c, comps, n);
    assert Holds(rows, id, c, key);
    var i0 :| 0 <= i0 < |rows| && rows[i0].id == id && rows[i0].contractId == c && rows[i0].content == key;
    assert NamedBy(rows[i0], comps, n);
    forall i | 0 <= i < |rows| && rows[i].id == id ensures rows[i].refPath.Some? {
      assert i == i0;
    }
    Pass1StepReused(s, c, comps[n]);
    var r := s.(byRef := s.byRef[ref := id]);
    RowsNamedMore(rows, c, comps, n);
    RefKeysMore(s.byRef, comps, n, id);
    Pass1TargetsReuse(s, c, comps, n);
  }

  lemma Pass1TargetsReuse(s: St, c: nat, comps: seq<(string, Json)>, n: nat)
    requires n < |comps| && Inv(s, c) && RefTargets(s, c, comps, n) && DistinctKeys(comps)
    requires IsDefinition(comps[n].1) && Canon(comps[n].1) in s.byContent
    ensures RefTargets(s.(byRef := s.byRef[ComponentRef(comps[n].0) := s.byContent[Canon(comps[n].1)]]), c, comps, n + 1)
  {
    var ref := ComponentRef(comps[n].0);
    var r := s.(byRef := s.byRef[ref := s.byContent[Canon(comps[n].1)]]);
    forall j | 0 <= j < n + 1 && IsDefinition(comps[j].1)
      ensures ComponentRef(comps[j].0) in r.byRef && Holds(r.t.schemas, r.byRef[ComponentRef(comps[j].0)], c, Canon(comps[j].1))
    {
      if j < n {
        assert ComponentRef(comps[j].0) != ref;
      }
    }
  }

  /** A definition with new text is inserted as a new row under its name and ref path. */
  lemma Pass1StepInsert(s: St, c: nat, comps: seq<(string, Json)>, n: nat)
    requires n < |comps| && Inv(s, c) && Pass1Shape(s, c, comps, n) && DistinctKeys(comps)
    requires IsDefinition(comps[n].1) && Canon(comps[n].1) !in s.byContent
    ensures Pass1Shape(Pass1Step(s, c, comps[n]), c, comps, n + 1)
  {
    var key := Canon(comps[n].1);
    Pass1FreshRef(s, c, comps, n);
    assert ContentFree(s.t.schemas, c, key);
    Pass1StepInserted(s, c, comps[n]);
    Pass1RowsInsert(s, c, comps, n);
    RefKeysMore(s.byRef, comps, n, s.t.nextSchema);
    Pass1TargetsInsert(s, c, comps, n);
  }

  lemma Pass1RowsInsert(s: St, c: nat, comps: seq<(string, Json)>, n: nat)
    requires n < |comps| && RowsNamed(s.t.schemas, c, comps, n) && RefTargets(s, c, comps, n)
    requires IsDefinition(comps[n].1) && ContentFree(s.t.schemas, c, Canon(comps[n].1))
    ensures RowsNamed(s.t.schemas + [SchemaRow(s.t.nextSchema, c, Some(comps[n].0), Some(ComponentRef(comps[n].0)), Canon(comps[n].1))], c, comps, n + 1)
  {
    var a := s.t.schemas;
    var row := SchemaRow(s.t.nextSchema, c, Some(comps[n].0), Some(ComponentRef(comps[n].0)), Canon(comps[n].1));
    var b := a + [row];
    assert FirstWithContent(comps, n) by {
      forall k | 0 <= k < n && IsDefinition(comps[k].1) ensures Canon(comps[k].1) != Canon(comps[n].1) {
        assert Holds(a, s.byRef[ComponentRef(comps[k].0)], c, Canon(comps[k].1));
      }
    }
    assert NamedBy(row, comps, n + 1);
    forall i | 0 <= i < |b| && b[i].contractId == c ensures NamedBy(b[i], comps, n + 1) {
      if i < |a| {
        assert b[i] == a[i];
        NamedByMore(a[i], comps, n);
      }
    }
  }

  lemma Pass1TargetsInsert(s: St, c: nat, comps: seq<(string, Json)>, n: nat)
    requires n < |comps| && RefTargets(s, c, comps, n) && DistinctKeys(comps)
    requires IsDefinition(comps[n].1)
    ensures var row := SchemaRow(s.t.nextSchema, c, Some(comps[n].0), Some(ComponentRef(comps[n].0)), Canon(comps[n].1));
      RefTargets(St(s.t.(schemas := s.t.schemas + [row], nextSchema := s.t.nextSchema + 1),
                    s.byContent[Canon(comps[n].1) := s.t.nextSchema],
                    s.byRef[ComponentRef(comps[n].0) := s.t.nextSchema]), c, comps, n + 1)
  {
    var ref := ComponentRef(comps[n].0);
    var a := s.t.schemas;
    var row := SchemaRow(s.t.nextSchema, c, Some(comps[n].0), Some(ref), Canon(comps[n].1));
    var b := a + [row];
    var m := s.byRef[ref := s.t.nextSchema];
    forall j | 0 <= j < n + 1 && IsDefinition(comps[j].1)
      ensures ComponentRef(comps[j].0) in m && Holds(b, m[ComponentRef(comps[j].0)], c, Canon(comps[j].1))
    {
      if j < n {
        var p := ComponentRef(comps[j].0);
        assert p != ref;
        assert Holds(a, s.byRef[p], c, Canon(comps[j].1));
        var i :| 0 <= i < |a| && a[i].id == s.byRef[p] && a[i].contractId == c && a[i].content == Canon(comps[j].1);
        assert b[i] == a[i];
      } else {
        assert b[|a|] == row;
      }
    }
  }

  /**
   * Pass 1 from a fresh contract (no rows, empty caches): each definition is registered under
   * `#/components/schemas/<name>` and points at the row holding its text; that row carries the
   * name and path of the first definition with the same text; nothing else is registered.
   */
  lemma {:induction false} Pass1Builds(s: St, c: nat, comps: seq<(string, Json)>, n: nat)
    requires Inv(s, c) && s.byContent == map[] && s.byRef == map[]
    requires DistinctKeys(comps) && n <= |comps|
    ensures Inv(Pass1(s, c, comps[..n]), c)
    ensures Pass1Shape(Pass1(s, c, comps[..n]), c, comps, n)
  {
    if n > 0 {
      Pass1Builds(s, c, comps, n - 1);
      assert comps[..n][..n - 1] == comps[..n - 1];
      var s1 := Pass1(s, c, comps[..n - 1]);
      assert Pass1(s, c, comps[..n]) == Pass1Step(s1, c, comps[n - 1]);
      Pass1StepKeepsInv(s1, c, comps[n - 1]);
      if !IsDefinition(comps[n - 1].1) {
        Pass1StepSkip(s1, c, comps, n - 1);
      } else if Canon(comps[n - 1].1) in s1.byContent {
        Pass1StepReuse(s1, c, comps, n - 1);
      } else {
        Pass1StepInsert(s1, c, comps, n - 1);
      }
    } else {
      assert RowsNamed(s.t.schemas, c, comps, 0);
    }
  }

  /** A component pass 2 resolves: a dict with a `$ref`. */
  predicate IsAlias(body: Json)
  {
    body.JObj? && HasKey(body, "$ref")
  }

  /**
   * One iteration of pass 2: a dict component whose path is not yet registered and whose
   * `$ref` target is registered takes the target's id; an unregistered target leaves it
   * unresolved (a warning); looking up an unhashable target raises TypeError.
   */
  function Pass2Step(s: St, comp: (string, Json)): (r: Result<St, Failure>)
    ensures r.Err? <==> IsAlias(comp.1) && ComponentRef(comp.0) !in s.byRef && !Hashable(Field(comp.1, "$ref"))
    ensures r.Err? ==> r.error == UnexpectedError
    ensures r.Ok? ==> r.value.t == s.t && r.value.byContent == s.byContent && CachesGrow(s, r.value)
    ensures r.Ok? ==> forall p :: p in r.value.byRef <==> (p in s.byRef
      || (p == ComponentRef(comp.0) && IsAlias(comp.1) && Field(comp.1, "$ref").JStr? && Field(comp.1, "$ref").s in s.byRef))
    ensures r.Ok? ==> forall p | p in r.value.byRef :: r.value.byRef[p] in s.byRef.Values
  {
    if !comp.1.JObj? then Ok(s)
    else
      var ref := ComponentRef(comp.0);
      if ref in s.byRef then Ok(s)
      else if HasKey(comp.1, "$ref") then
        match Field(comp.1, "$ref")
        case JStr(target) => Ok(if target in s.byRef then s.(byRef := s.byRef[ref := s.byRef[target]]) else s)
        case JArr(_) => Err(UnexpectedError)
        case JObj(_) => Err(UnexpectedError)
        case _ => Ok(s)
      else Ok(s)
  }

  /** Pass 2 over the components in iteration order, stopping at the first exception. */
  function Pass2(s: St, comps: seq<(string, Json)>): (r: Result<St, Failure>)
    decreases |comps|
    ensures r.Ok? ==> r.value.t == s.t && r.value.byContent == s.byContent && CachesGrow(s, r.value)
    // Every new entry is an alias component's path and reuses an id the cache already had.
    ensures r.Ok? ==> forall p | p in r.value.byRef :: (p in s.byRef
      || exists i :: 0 <= i < |comps| && IsAlias(comps[i].1) && p == ComponentRef(comps[i].0))
    ensures r.Ok? ==> forall p | p in r.value.byRef :: r.value.byRef[p] in s.byRef.Values
    ensures r.Err? ==> (r.error == UnexpectedError
      && exists i :: 0 <= i < |comps| && IsAlias(comps[i].1) && !Hashable(Field(comps[i].1, "$ref")))
    ensures (forall i :: 0 <= i < |comps| && IsAlias(comps[i].1) ==> Hashable(Field(comps[i].1, "$ref"))) ==> r.Ok?
  {
    if |comps| == 0 then Ok(s)
    else
      match Pass2(s, comps[..|comps| - 1])
      case Err(e) => Err(e)
      case Ok(s1) =>
        var r := Pass2Step(s1, comps[|comps| - 1]);
        assert r.Ok? ==> forall p | p in r.value.byRef :: r.value.byRef[p] in s.byRef.Values by {
          if r.Ok? {
            forall p | p in r.value.byRef ensures r.value.byRef[p] in s.byRef.Values {
              var v := r.value.byRef[p];
              assert v in s1.byRef.Values;
              var q :| q in s1.byRef && s1.byRef[q] == v;
            }
          }
        }
        r
  }

  /** Pass 2 carried on over `rest` after a prefix, unless the prefix already failed. */
  function Pass2Then(r: Result<St, Failure>, rest: seq<(string, Json)>): Result<St, Failure>
  {
    match r
    case Err(e) => Err(e)
    case Ok(sn) => Pass2(sn, rest)
  }

  /** A fold over a sequence that stops at the first failure. */
  function Fold<S, T, E>(step: (S, T) -> Result<S, E>, s: S, xs: seq<T>): Result<S, E>
    decreases |xs|
  {
    if |xs| == 0 then Ok(s)
    else
      match Fold(step, s, xs[..|xs| - 1])
      case Err(e) => Err(e)
      case Ok(s1) => step(s1, xs[|xs| - 1])
  }

  function FoldThen<S, T, E>(step: (S, T) -> Result<S, E>, r: Result<S, E>, rest: seq<T>): Result<S, E>
  {
    match r
    case Err(e) => Err(e)
    case Ok(sn) => Fold(step, sn, rest)
  }

  lemma {:induction false} FoldSplit<S, T, E>(step: (S, T) -> Result<S, E>, s: S, xs: seq<T>, n: nat)
    requires n <= |xs|
    ensures Fold(step, s, xs) == FoldThen(step, Fold(step, s, xs[..n]), xs[n..])
    decreases |xs|
  {
    if n < |xs| {
      var m := |xs| - 1;
      FoldSplit(step, s, xs[..m], n);
      assert xs[..m][..n] == xs[..n];
      var tail := xs[n..];
      assert tail[..|tail| - 1] == xs[..m][n..];
      assert tail[|tail| - 1] == xs[m];
    } else {
      assert xs[..n] == xs;
    }
  }

  lemma {:induction false} Pass2IsFold(s: St, comps: seq<(string, Json)>)
    ensures Pass2(s, comps) == Fold(Pass2Step, s, comps)
    decreases |comps|
  {
    if |comps| > 0 {
      Pass2IsFold(s, comps[..|comps| - 1]);
    }
  }

  lemma Pass2Split(s: St, comps: seq<(string, Json)>, n: nat)
    requires n <= |comps|
    ensures Pass2(s, comps) == Pass2Then(Pass2(s, comps[..n]), comps[n..])
  {
    Pass2IsFold(s, comps);
    Pass2IsFold(s, comps[..n]);
    FoldSplit(Pass2Step, s, comps, n);
    if Pass2(s, comps[..n]).Ok? {
      Pass2IsFold(Pass2(s, comps[..n]).value, comps[n..]);
    }
  }

  /**
   * An alias component ends up registered exactly when, at its turn, its `$ref` target was
   * already registered: by pass 1 or by an alias earlier in iteration order.
   */
  lemma Pass2Resolves(s: St, comps: seq<(string, Json)>, i: nat)
    requires DistinctKeys(comps) && i < |comps| && Pass2(s, comps).Ok?
    requires IsAlias(comps[i].1) && Field(comps[i].1, "$ref").JStr?
    requires ComponentRef(comps[i].0) !in s.byRef
    ensures Pass2(s, comps[..i]).Ok?
    ensures ComponentRef(comps[i].0) in Pass2(s, comps).value.byRef
      <==> Field(comps[i].1, "$ref").s in Pass2(s, comps[..i]).value.byRef
  {
    var ref := ComponentRef(comps[i].0);
    Pass2Split(s, comps, i);
    Pass2Split(s, comps, i + 1);
    assert comps[..i + 1][..i] == comps[..i];
    assert comps[..i + 1][i] == comps[i];
    var si := Pass2(s, comps[..i]).value;
    var si1 := Pass2(s, comps[..i + 1]).value;
    var r := Pass2(s, comps).value;
    forall k | 0 <= k < i ensures ComponentRef(comps[..i][k].0) != ref {
      assert comps[..i][k] == comps[k];
    }
    assert Pass2(si1, comps[i + 1..]).Ok?;
    var rest := comps[i + 1..];
    forall k | 0 <= k < |rest| ensures ComponentRef(rest[k].0) != ref {
      assert rest[k] == comps[i + 1 + k];
    }
  }

  /**
   * Pass 2 after pass 1 of a fresh contract: an alias is registered at the end exactly when
   * its target was registered by then, either as a pass-1 definition or by an earlier alias.
   */
  lemma Pass2ResolvesAfterPass1(t1: Tables, c: nat, comps: seq<(string, Json)>, i: nat)
    requires Inv(St(t1, map[], map[]), c) && DistinctKeys(comps) && i < |comps|
    requires IsAlias(comps[i].1) && Field(comps[i].1, "$ref").JStr?
    requires Pass2(Pass1(St(t1, map[], map[]), c, comps), comps).Ok?
    ensures var s := Pass1(St(t1, map[], map[]), c, comps);
      && Pass2(s, comps[..i]).Ok?
      && (ComponentRef(comps[i].0) in Pass2(s, comps).value.byRef
          <==> Field(comps[i].1, "$ref").s in Pass2(s, comps[..i]).value.byRef)
  {
    var s0 := St(t1, map[], map[]);
    Pass1Builds(s0, c, comps, |comps|);
    assert comps[..|comps|] == comps;
    var s := Pass1(s0, c, comps);
    if ComponentRef(comps[i].0) in s.byRef {
      assert false;
    }
    Pass2Resolves(s, comps, i);
  }
}
