/**
 * get_team_components.py: the components owned by a team or any team below it. The three
 * JSON listings arrive already loaded and validated; fetching and saving OpenAPI documents
 * is not part of this model, apart from the file name each document would be saved under.
 */
module TeamComponents {
  import opened Wrappers
  import opened Strs
  import DescendantTeams

  /** One owning team of a component (`OwnerTeam`); only its tag matters here. */
  datatype OwnerTeam = OwnerTeam(tag: string)

  datatype Owners = Owners(teams: Option<seq<OwnerTeam>>)

  /** A component (`Entity`) with the fields the filter reads. */
  datatype Entity = Entity(tag: string, name: string, owners: Option<Owners>)

  datatype ComponentsError =
    /** The top-level tag has no entry in the team map: the program exits with status 1. */
    | TopTeamNotFound(tag: string)
    /** The descendant search failed. */
    | DescendantsFailed(error: DescendantTeams.TeamError)

  // ---------------------------------------------------------------- relevant teams

  /** The descendants' tags with the top-level tag added. */
  function RelevantTags(descendants: seq<DescendantTeams.Team>, top: string): (r: set<string>)
    ensures top in r
    ensures forall t :: t in r ==> t == top || exists k :: 0 <= k < |descendants| && descendants[k].teamTag == t
    ensures forall k :: 0 <= k < |descendants| ==> descendants[k].teamTag in r
  {
    (set k | 0 <= k < |descendants| :: descendants[k].teamTag) + {top}
  }

  // ---------------------------------------------------------------- ownership filter

  /** `component.owners and component.owners.teams`: owners present and a non-empty team list. */
  predicate HasOwnerTeams(c: Entity)
  {
    c.owners.Some? && c.owners.value.teams.Some? && |c.owners.value.teams.value| > 0
  }

  /** Some owning team with a non-empty tag is relevant. */
  predicate Owned(c: Entity, relevant: set<string>)
  {
    HasOwnerTeams(c)
    && exists i :: 0 <= i < |c.owners.value.teams.value|
                   && c.owners.value.teams.value[i].tag != "" && c.owners.value.teams.value[i].tag in relevant
  }

  /** The components the loop keeps, in their listed order. */
  function Kept(components: seq<Entity>, relevant: set<string>): seq<Entity>
  {
    if |components| == 0 then []
    else
      var last := components[|components| - 1];
      Kept(components[..|components| - 1], relevant) + (if Owned(last, relevant) then [last] else [])
  }

  /** The positions of the owned components, in increasing order. */
  function OwnedIndices(components: seq<Entity>, relevant: set<string>): (r: seq<nat>)
    ensures forall k :: 0 <= k < |r| ==> r[k] < |components|
    ensures forall k, l :: 0 <= k < l < |r| ==> r[k] < r[l]
    ensures forall j :: 0 <= j < |components| ==> (Owned(components[j], relevant) <==> j in r)
  {
    if |components| == 0 then []
    else
      var n := |components| - 1;
      var init := OwnedIndices(components[..n], relevant);
      assert forall j :: 0 <= j < n ==> components[..n][j] == components[j];
      init + (if Owned(components[n], relevant) then [n] else [])
  }

  /**
   * The kept list is the owned components at their positions, in order: every owned
   * component exactly once and nothing else.
   */
  lemma {:induction false} KeptInOrder(components: seq<Entity>, relevant: set<string>)
    ensures var idx := OwnedIndices(components, relevant);
            |Kept(components, relevant)| == |idx|
            && forall k :: 0 <= k < |idx| ==> Kept(components, relevant)[k] == components[idx[k]]
  {
    if |components| > 0 {
      var n := |components| - 1;
      KeptInOrder(components[..n], relevant);
      var idx := OwnedIndices(components[..n], relevant);
      forall k | 0 <= k < |idx| ensures components[..n][idx[k]] == components[idx[k]] {
      }
    }
  }

  /** A component is kept exactly when some relevant team with a non-empty tag owns it. */
  lemma KeptMembers(components: seq<Entity>, relevant: set<string>, c: Entity)
    ensures c in Kept(components, relevant) <==> c in components && Owned(c, relevant)
  {
    KeptInOrder(components, relevant);
    var idx := OwnedIndices(components, relevant);
    var kept := Kept(components, relevant);
    if c in kept {
      var k :| 0 <= k < |kept| && kept[k] == c;
      assert components[idx[k]] == c;
    }
    if c in components && Owned(c, relevant) {
      var j :| 0 <= j < |components| && components[j] == c;
      var k :| 0 <= k < |idx| && idx[k] == j;
      assert kept[k] == c;
    }
  }

  /** The owner tags the loop collects: every non-empty tag among the owning teams. */
  function OwnerTags(teams: seq<OwnerTeam>): (r: set<string>)
    ensures forall t :: t in r <==> exists i :: 0 <= i < |teams| && teams[i].tag != "" && teams[i].tag == t
  {
    set i | 0 <= i < |teams| && teams[i].tag != "" :: teams[i].tag
  }

  /** The for loop over all components. */
  method FilterComponents(components: seq<Entity>, relevant: set<string>) returns (kept: seq<Entity>)
    ensures kept == Kept(components, relevant)
  {
    kept := [];
    var i := 0;
    while i < |components|
      invariant i <= |components|
      invariant kept == Kept(components[..i], relevant)
    {
      assert components[..i + 1][..i] == components[..i];
      var component := components[i];
      if component.owners.Some? && component.owners.value.teams.Some? && |component.owners.value.teams.value| > 0 {
        var teams := component.owners.value.teams.value;
        var ownerTags := OwnerTags(teams);
        if ownerTags * relevant != {} {
          ghost var t :| t in ownerTags * relevant;
          kept := kept + [component];
        } else {
          forall j | 0 <= j < |teams| && teams[j].tag != "" ensures teams[j].tag !in relevant {
            assert teams[j].tag in ownerTags && teams[j].tag !in ownerTags * relevant;
          }
        }
      }
      i := i + 1;
    }
    assert components[..i] == components;
  }

  // ---------------------------------------------------------------- the whole query

  /**
   * get_team_components. It fails when the top-level tag is not in the map or when a team
   * below it is missing from the map; otherwise the relevant tags are the top-level tag and
   * every tag below it, and the result is the owned components in their listed order.
   */
  method GetTeamComponents(top: string, edges: seq<DescendantTeams.Edge>,
                           tagMap: map<string, DescendantTeams.TeamInfo>, components: seq<Entity>)
    returns (r: Result<seq<Entity>, ComponentsError>, relevant: set<string>)
    ensures top !in tagMap ==> r == Err(TopTeamNotFound(top))
    ensures r.Ok? <==> top in tagMap && forall v :: DescendantTeams.Descends(edges, top, v) && v != top ==> v in tagMap
    ensures r.Ok? ==> forall v :: v in relevant <==> DescendantTeams.ReachedFrom(edges, top, v)
    ensures r.Ok? ==> r.value == Kept(components, relevant)
  {
    if top !in tagMap {
      return Err(TopTeamNotFound(top)), {};
    }
    var descendants, order := DescendantTeams.GetDescendantTeams(top, edges, tagMap);
    if descendants.Err? {
      return Err(DescendantsFailed(descendants.error)), {};
    }
    relevant := RelevantTags(descendants.value, top);
    forall v | DescendantTeams.Descends(edges, top, v) && v != top ensures v in relevant {
      var k :| 0 <= k < |descendants.value| && descendants.value[k].teamTag == v;
    }
    var kept := FilterComponents(components, relevant);
    return Ok(kept), relevant;
  }

  // ---------------------------------------------------------------- document file names

  const DocSuffix: string := "_openapi.json"

  /** The name a component's OpenAPI document is saved under: `/` becomes `_`, then the suffix. */
  function DocFileName(tag: string): (r: string)
  {
    ReplaceChar(tag, '/', '_') + DocSuffix
  }

  /** The name never holds a `/`, keeps the tag's other characters in place and ends with the suffix. */
  lemma DocFileNameShape(tag: string)
    ensures |DocFileName(tag)| == |tag| + |DocSuffix|
    ensures '/' !in DocFileName(tag)
    ensures forall i :: 0 <= i < |tag| && tag[i] != '/' ==> DocFileName(tag)[i] == tag[i]
    ensures EndsWith(DocFileName(tag), DocSuffix)
  {
    var r := DocFileName(tag);
    assert r[|tag|..] == DocSuffix;
    assert '/' !in DocSuffix;
  }

  /** Two tags that differ only by `/` against `_` are saved under the same name. */
  lemma DocFileNameClash()
    ensures "team/api" != "team_api"
    ensures DocFileName("team/api") == DocFileName("team_api")
  {
    assert ReplaceChar("team/api", '/', '_') == "team_api";
    assert ReplaceChar("team_api", '/', '_') == "team_api";
  }
}
