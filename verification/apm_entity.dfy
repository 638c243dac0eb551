/**
 * get_apm_entity_by_tag.py, after the NerdGraph request: the check for reported errors and
 * the rule that picks one APM entity out of the search results. The decoded response is a
 * parameter, and so is the entity list pydantic validates out of it.
 */
module ApmEntitySelection {
  import opened Wrappers
  import opened Strs
  import opened JsonValue
  import Seqs

  /** One search result as the response carries it. */
  datatype ApiEntity = ApiEntity(guid: string, name: string, domain: string, kind: string, entityType: string)

  /** The entity returned to the caller. */
  datatype ApmEntity = ApmEntity(guid: string, name: string, domain: string, kind: string, entityType: string)

  /** The ValueError raised when the response reports errors. */
  datatype ApmError = ReportedErrors(errors: Json)

  const PreferredKeywords: seq<string> := ["live", "prod", "production"]

  function Output(e: ApiEntity): (r: ApmEntity)
    ensures r.guid == e.guid && r.name == e.name && r.domain == e.domain
    ensures r.kind == e.kind && r.entityType == e.entityType
  {
    ApmEntity(e.guid, e.name, e.domain, e.kind, e.entityType)
  }

  /** The lower-cased name contains one of the keywords. */
  predicate Preferred(e: ApmEntity)
  {
    exists k :: 0 <= k < |PreferredKeywords| && Contains(Lower(e.name), PreferredKeywords[k])
  }

  /** The first entity, from `from` on, with a preferred name. */
  function FirstPreferred(es: seq<ApmEntity>, from: nat): (r: Option<nat>)
    decreases |es| - from
    ensures r.Some? ==> from <= r.value < |es| && Preferred(es[r.value])
    ensures r.Some? ==> forall j :: from <= j < r.value ==> !Preferred(es[j])
    ensures r.None? ==> forall j :: from <= j < |es| ==> !Preferred(es[j])
  {
    if from >= |es| then None
    else if Preferred(es[from]) then Some(from)
    else FirstPreferred(es, from + 1)
  }

  /** The search loop: entities in list order, keywords in their listed order within each. */
  function Choose(es: seq<ApmEntity>): (r: ApmEntity)
    requires |es| > 1
  {
    match FirstPreferred(es, 0)
    case Some(i) => es[i]
    case None => es[0]
  }

  /**
   * The selection in get_prod_apm_entities_by_component_tag. `results` is None when any link
   * of data.actor.entitySearch.results.entities is missing or null.
   */
  function SelectEntity(response: Json, results: Option<seq<ApiEntity>>): (r: Result<Option<ApmEntity>, ApmError>)
    ensures r.Err? <==> Truthy(Field(response, "errors"))
    ensures r.Ok? && (results.None? || |results.value| == 0) ==> r.value.None?
    ensures r.Ok? && results.Some? ==> SelectFrom(results.value) == r.value
  {
    if Truthy(Field(response, "errors")) then Err(ReportedErrors(Field(response, "errors")))
    else if results.None? then Ok(None)
    else Ok(SelectFrom(results.value))
  }

  /** The choice among the entities the search returned. */
  function SelectFrom(entities: seq<ApiEntity>): (r: Option<ApmEntity>)
    ensures |entities| == 0 ==> r.None?
    ensures |entities| == 1 ==> r == Some(Output(entities[0]))
    ensures |entities| > 0 ==> r.Some? && exists i :: 0 <= i < |entities| && r.value == Output(entities[i])
  {
    if |entities| == 0 then None
    else
      var output := Seqs.Map(Output, entities);
      if |output| == 1 then Some(output[0])
      else
        var chosen := Choose(output);
        var k := if FirstPreferred(output, 0).Some? then FirstPreferred(output, 0).value else 0;
        assert chosen == output[k] == Output(entities[k]);
        Some(chosen)
  }

  /**
   * With several entities, the result is the first in list order whose name is preferred,
   * whichever keyword matched, and the first entity when none is.
   */
  lemma SeveralEntities(entities: seq<ApiEntity>)
    requires |entities| > 1
    ensures var r := SelectFrom(entities).value;
            (exists i :: 0 <= i < |entities| && Preferred(Output(entities[i])))
            ==> exists i :: 0 <= i < |entities| && r == Output(entities[i]) && Preferred(r)
                  && forall j :: 0 <= j < i ==> !Preferred(Output(entities[j]))
    ensures var r := SelectFrom(entities).value;
            (forall i :: 0 <= i < |entities| ==> !Preferred(Output(entities[i]))) ==> r == Output(entities[0])
  {
    var output := Seqs.Map(Output, entities);
    if exists i :: 0 <= i < |entities| && Preferred(Output(entities[i])) {
      var i :| 0 <= i < |entities| && Preferred(Output(entities[i]));
      assert output[i] == Output(entities[i]);
      var f := FirstPreferred(output, 0);
      assert f.Some?;
      forall j | 0 <= j < f.value ensures !Preferred(Output(entities[j])) {
        assert output[j] == Output(entities[j]);
      }
    } else {
      assert FirstPreferred(output, 0).None?;
    }
  }

  /** "production" contains "prod", so the third keyword never decides anything. */
  lemma ProductionAddsNothing(name: string)
    ensures Contains(name, "production") ==> Contains(name, "prod")
  {
    if Contains(name, "production") {
      var i := FindFrom(name, "production", 0).value;
      assert name[i..i + 10] == "production";
      assert name[i..i + 4] == name[i..i + 10][..4];
      ContainsAt(name, "prod", i);
    }
  }

  /** Preference is therefore "live" or "prod" in the lower-cased name. */
  lemma PreferredIsLiveOrProd(e: ApmEntity)
    ensures Preferred(e) <==> Contains(Lower(e.name), "live") || Contains(Lower(e.name), "prod")
  {
    ProductionAddsNothing(Lower(e.name));
    if Contains(Lower(e.name), "live") {
      assert PreferredKeywords[0] == "live";
    }
    if Contains(Lower(e.name), "prod") {
      assert PreferredKeywords[1] == "prod";
    }
  }
}
