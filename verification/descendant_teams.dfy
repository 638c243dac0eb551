/**
 * get_descendent_teams.py: the tag-to-team map built from the teams listing, and the
 * breadth-first search for every team below a top-level team. Loading the two JSON files is
 * not part of this model; the relationships arrive as validated edges.
 */
module DescendantTeams {
  import opened Wrappers
  import opened Strs
  import opened JsonValue
  import Seqs

  /** A relationship: the child team hangs below the parent team. */
  datatype Edge = Edge(childTeamTag: string, parentTeamTag: string)

  /** The `_Team` kept per tag: its id and display name. */
  datatype TeamInfo = TeamInfo(id: string, name: string)

  /** A descendant, with the parent it was reached from. */
  datatype Team = Team(id: string, teamTag: string, parentTeamTag: string, teamName: string)

  datatype TeamError =
    /** A teams entry without `.get`: AttributeError. */
    | NotADictionary
    /** `_Team(teamId=id, name=name)` with a non-string id or name: ValidationError. */
    | InvalidTeam
    /** A list or dict used as a dict key: TypeError. */
    | UnhashableTag
    /** A reached child tag with no entry in the map: `None.name` raises AttributeError. */
    | MissingTeam(tag: string)

  // ---------------------------------------------------------------- _create_tag_to_team_map

  function TagOf(team: Json): Json
  {
    Field(team, "team_tag")
  }

  function IdOf(team: Json): Json
  {
    Field(team, "id")
  }

  /** `metadata.get("name")` when metadata is a dict, else None. */
  function NameOf(team: Json): Json
  {
    var metadata := Field(team, "metadata");
    if metadata.JObj? then Field(metadata, "name") else JNull
  }

  /** `if tag and name and id`. */
  predicate Qualifies(team: Json)
  {
    Truthy(TagOf(team)) && Truthy(NameOf(team)) && Truthy(IdOf(team))
  }

  /** An entry that puts `tag` into the map. */
  predicate EntryFor(team: Json, tag: string)
  {
    team.JObj? && Qualifies(team) && TagOf(team) == JStr(tag) && IdOf(team).JStr? && NameOf(team).JStr?
  }

  function InfoOf(team: Json): TeamInfo
    requires IdOf(team).JStr? && NameOf(team).JStr?
  {
    TeamInfo(IdOf(team).s, NameOf(team).s)
  }

  /**
   * One entry of the loop. A truthy hashable tag that is not a string (a number or a
   * boolean) is stored under a key no string tag can ever look up, so it is dropped here.
   */
  function TagMapStep(m: map<string, TeamInfo>, team: Json): Result<map<string, TeamInfo>, TeamError>
  {
    if !team.JObj? then Err(NotADictionary)
    else if !Qualifies(team) then Ok(m)
    else if !IdOf(team).JStr? || !NameOf(team).JStr? then Err(InvalidTeam)
    else if !Hashable(TagOf(team)) then Err(UnhashableTag)
    else if TagOf(team).JStr? then Ok(m[TagOf(team).s := InfoOf(team)])
    else Ok(m)
  }

  function TagMap(teams: seq<Json>): Result<map<string, TeamInfo>, TeamError>
  {
    if |teams| == 0 then Ok(map[])
    else
      match TagMap(teams[..|teams| - 1])
      case Err(e) => Err(e)
      case Ok(m) => TagMapStep(m, teams[|teams| - 1])
  }

  /** One entry adds its own tag, when it is an entry for it, and removes none. */
  lemma TagMapStepKeys(m: map<string, TeamInfo>, team: Json, tag: string)
    requires TagMapStep(m, team).Ok?
    ensures tag in TagMapStep(m, team).value <==> tag in m || EntryFor(team, tag)
  {
  }

  /** The entry's own tag gets its id and name; every other tag keeps what it had. */
  lemma TagMapStepValue(m: map<string, TeamInfo>, team: Json, tag: string)
    requires TagMapStep(m, team).Ok?
    ensures EntryFor(team, tag) ==> TagMapStep(m, team).value[tag] == InfoOf(team)
    ensures !EntryFor(team, tag) && tag in m ==> TagMapStep(m, team).value[tag] == m[tag]
  {
  }

  lemma TagMapLast(teams: seq<Json>)
    requires |teams| > 0 && TagMap(teams).Ok?
    ensures TagMap(teams[..|teams| - 1]).Ok?
    ensures TagMap(teams) == TagMapStep(TagMap(teams[..|teams| - 1]).value, teams[|teams| - 1])
  {
  }

  predicate HasEntry(teams: seq<Json>, tag: string)
  {
    exists i :: 0 <= i < |teams| && EntryFor(teams[i], tag)
  }

  lemma HasEntryLast(teams: seq<Json>, tag: string)
    requires |teams| > 0
    ensures HasEntry(teams, tag) <==> HasEntry(teams[..|teams| - 1], tag) || EntryFor(teams[|teams| - 1], tag)
  {
    var p := t => EntryFor(t, tag);
    var init := teams[..|teams| - 1];
    Seqs.ExistsInit(teams, init, p);
    assert HasEntry(teams, tag) <==> exists i :: 0 <= i < |teams| && p(teams[i]);
    assert HasEntry(init, tag) <==> exists i :: 0 <= i < |init| && p(init[i]);
  }

  /** A tag is in the map exactly when some entry has it with a string id and name and truthy fields. */
  lemma {:induction false} TagMapKeys(teams: seq<Json>, tag: string)
    requires TagMap(teams).Ok?
    ensures tag in TagMap(teams).value <==> HasEntry(teams, tag)
  {
    if |teams| > 0 {
      var init := teams[..|teams| - 1];
      TagMapLast(teams);
      TagMapStepKeys(TagMap(init).value, teams[|teams| - 1], tag);
      TagMapKeys(init, tag);
      HasEntryLast(teams, tag);
    }
  }

  /** Entry `i` is the last entry for `tag`. */
  predicate LastEntry(teams: seq<Json>, tag: string, i: nat)
  {
    i < |teams| && EntryFor(teams[i], tag) && forall j :: i < j < |teams| ==> !EntryFor(teams[j], tag)
  }

  /** A tag maps to the last entry that has it: later entries overwrite earlier ones. */
  lemma {:induction false} TagMapLastWins(teams: seq<Json>, tag: string)
    requires TagMap(teams).Ok? && tag in TagMap(teams).value
    ensures exists i :: 0 <= i && LastEntry(teams, tag, i) && TagMap(teams).value[tag] == InfoOf(teams[i])
  {
    var n := |teams|;
    var init := teams[..n - 1];
    var team := teams[n - 1];
    TagMapLast(teams);
    TagMapStepKeys(TagMap(init).value, team, tag);
    TagMapStepValue(TagMap(init).value, team, tag);
    if EntryFor(team, tag) {
      assert LastEntry(teams, tag, n - 1);
    } else {
      TagMapLastWins(init, tag);
      var i :| 0 <= i && LastEntry(init, tag, i) && TagMap(init).value[tag] == InfoOf(init[i]);
      LastEntryExtends(teams, init, tag, i);
    }
  }

  lemma LastEntryExtends(teams: seq<Json>, init: seq<Json>, tag: string, i: nat)
    requires |teams| > 0 && init == teams[..|teams| - 1] && LastEntry(init, tag, i)
    requires !EntryFor(teams[|teams| - 1], tag)
    ensures LastEntry(teams, tag, i) && teams[i] == init[i]
  {
    forall j | i < j < |teams| ensures !EntryFor(teams[j], tag) {
      if j < |init| {
        assert teams[j] == init[j];
      }
    }
  }

  lemma {:induction false} TagMapStop(teams: seq<Json>, k: nat)
    requires k <= |teams| && TagMap(teams[..k]).Err?
    ensures TagMap(teams) == TagMap(teams[..k])
    decreases |teams| - k
  {
    if k < |teams| {
      assert teams[..k + 1][..k] == teams[..k];
      TagMapStop(teams, k + 1);
    } else {
      assert teams[..k] == teams;
    }
  }

  /** _create_tag_to_team_map. */
  method CreateTagToTeamMap(teams: seq<Json>) returns (r: Result<map<string, TeamInfo>, TeamError>)
    ensures r == TagMap(teams)
  {
    var m: map<string, TeamInfo> := map[];
    var i := 0;
    while i < |teams|
      invariant i <= |teams|
      invariant TagMap(teams[..i]) == Ok(m)
    {
      assert teams[..i + 1][..i] == teams[..i];
      var team := teams[i];
      var step := TagMapStep(m, team);
      if step.Err? {
        TagMapStop(teams, i + 1);
        return step;
      }
      if team.JObj? && Qualifies(team) && TagOf(team).JStr? {
        m := m[TagOf(team).s := InfoOf(team)];
      }
      i := i + 1;
    }
    assert teams[..i] == teams;
    return Ok(m);
  }

  // ---------------------------------------------------------------- adjacency

  /** The children of `parent`, in edge order. */
  function ChildrenOf(edges: seq<Edge>, parent: string): (r: seq<string>)
    ensures forall c :: c in r <==> Edge(c, parent) in edges
  {
    if |edges| == 0 then []
    else
      var last := edges[|edges| - 1];
      var r := ChildrenOf(edges[..|edges| - 1], parent) + (if last.parentTeamTag == parent then [last.childTeamTag] else []);
      assert forall c :: Edge(c, parent) in edges <==> Edge(c, parent) in edges[..|edges| - 1] || Edge(c, parent) == last by {
        assert edges == edges[..|edges| - 1] + [last];
      }
      r
  }

  /** The `adj` dict after the loop over the edges. */
  function Adjacency(edges: seq<Edge>): map<string, seq<string>>
  {
    if |edges| == 0 then map[]
    else
      var adj := Adjacency(edges[..|edges| - 1]);
      var e := edges[|edges| - 1];
      adj[e.parentTeamTag := (if e.parentTeamTag in adj then adj[e.parentTeamTag] else []) + [e.childTeamTag]]
  }

  lemma {:induction false} NoChildren(edges: seq<Edge>, p: string)
    requires forall c :: Edge(c, p) !in edges
    ensures ChildrenOf(edges, p) == []
  {
    if |edges| > 0 {
      var e := edges[|edges| - 1];
      assert Edge(e.childTeamTag, e.parentTeamTag) in edges;
      NoChildren(edges[..|edges| - 1], p);
    }
  }

  /** A tag has an adjacency entry iff it is a parent on some edge, listing its children in edge order. */
  lemma {:induction false} AdjacencyAt(edges: seq<Edge>, p: string)
    ensures p in Adjacency(edges) <==> exists c :: Edge(c, p) in edges
    ensures p in Adjacency(edges) ==> Adjacency(edges)[p] == ChildrenOf(edges, p)
  {
    if |edges| > 0 {
      var init := edges[..|edges| - 1];
      var e := edges[|edges| - 1];
      AdjacencyAt(init, p);
      assert edges == init + [e];
      if p in Adjacency(init) {
        var c :| Edge(c, p) in init;
        assert Edge(c, p) in edges;
      }
      if p == e.parentTeamTag {
        assert Edge(e.childTeamTag, p) in edges;
      }
      if exists c :: Edge(c, p) in edges {
        var c :| Edge(c, p) in edges;
        assert Edge(c, p) in init || Edge(c, p) == e;
      }
      if p != e.parentTeamTag {
        assert ChildrenOf(edges, p) == ChildrenOf(init, p);
      } else if p !in Adjacency(init) {
        NoChildren(init, p);
      }
    }
  }

  /** The loop that builds `adj`. */
  method BuildAdjacency(edges: seq<Edge>) returns (adj: map<string, seq<string>>)
    ensures adj == Adjacency(edges)
  {
    adj := map[];
    var i := 0;
    while i < |edges|
      invariant i <= |edges|
      invariant adj == Adjacency(edges[..i])
    {
      assert edges[..i + 1][..i] == edges[..i];
      var edge := edges[i];
      if edge.parentTeamTag !in adj {
        adj := adj[edge.parentTeamTag := []];
      }
      adj := adj[edge.parentTeamTag := adj[edge.parentTeamTag] + [edge.childTeamTag]];
      i := i + 1;
    }
    assert edges[..i] == edges;
  }

  // ---------------------------------------------------------------- reachability

  /** A chain of edges, each step from a parent to one of its children. */
  ghost predicate IsPath(edges: seq<Edge>, path: seq<string>)
  {
    |path| >= 1 && forall i :: 0 <= i < |path| - 1 ==> Edge(path[i + 1], path[i]) in edges
  }

  /** `b` lies one or more edges below `a`. */
  ghost predicate Descends(edges: seq<Edge>, a: string, b: string)
  {
    exists path :: |path| >= 2 && IsPath(edges, path) && path[0] == a && path[|path| - 1] == b
  }

  ghost predicate ReachedFrom(edges: seq<Edge>, top: string, v: string)
  {
    v == top || Descends(edges, top, v)
  }

  lemma DescendsStep(edges: seq<Edge>, top: string, u: string, c: string)
    requires ReachedFrom(edges, top, u) && Edge(c, u) in edges
    ensures Descends(edges, top, c)
  {
    if u == top {
      assert IsPath(edges, [top, c]);
    } else {
      var path :| |path| >= 2 && IsPath(edges, path) && path[0] == top && path[|path| - 1] == u;
      var longer := path + [c];
      assert IsPath(edges, longer);
    }
  }

  /** A set holding `top` and closed under children holds every tag below `top`. */
  lemma ClosedHoldsDescendants(edges: seq<Edge>, top: string, s: set<string>)
    requires top in s
    requires forall u, c :: u in s && Edge(c, u) in edges ==> c in s
    ensures forall v :: Descends(edges, top, v) ==> v in s
  {
    forall v | Descends(edges, top, v) ensures v in s {
      var path :| |path| >= 2 && IsPath(edges, path) && path[0] == top && path[|path| - 1] == v;
      PathInClosed(edges, s, path, |path| - 1);
    }
  }

  lemma {:induction false} PathInClosed(edges: seq<Edge>, s: set<string>, path: seq<string>, k: nat)
    requires IsPath(edges, path) && path[0] in s && k < |path|
    requires forall u, c :: u in s && Edge(c, u) in edges ==> c in s
    ensures path[k] in s
  {
    if k > 0 {
      PathInClosed(edges, s, path, k - 1);
      assert Edge(path[k], path[k - 1]) in edges;
    }
  }

  // ---------------------------------------------------------------- the search

  predicate HasRecord(found: set<Team>, tag: string)
  {
    exists t :: t in found && t.teamTag == tag
  }

  /** A record as the search creates it: below the top, on an edge, named from the map. */
  ghost predicate RecordOk(edges: seq<Edge>, top: string, tagMap: map<string, TeamInfo>, t: Team)
  {
    Descends(edges, top, t.teamTag) && t.teamTag != top && Edge(t.teamTag, t.parentTeamTag) in edges
    && t.teamTag in tagMap && t.id == tagMap[t.teamTag].id && t.teamName == tagMap[t.teamTag].name
  }

  /** What the queue, the processed set and the descendants set keep across the search. */
  ghost predicate SearchInv(edges: seq<Edge>, top: string, tagMap: map<string, TeamInfo>,
                            queue: seq<string>, processed: set<string>, found: set<Team>)
  {
    (forall k :: 0 <= k < |queue| ==> ReachedFrom(edges, top, queue[k]))
    && (forall p :: p in processed ==> ReachedFrom(edges, top, p))
    && (forall t :: t in found ==> RecordOk(edges, top, tagMap, t))
    && (forall k :: 0 <= k < |queue| && queue[k] != top ==> HasRecord(found, queue[k]))
    && (forall p :: p in processed && p != top ==> HasRecord(found, p))
  }

  /** Every tag on an edge below a processed team is processed or waiting in the queue. */
  ghost predicate Closed(edges: seq<Edge>, queue: seq<string>, processed: set<string>)
  {
    forall u, c :: u in processed && Edge(c, u) in edges ==> c in processed || c in queue
  }

  /** A record the expansion of `current` creates: a child not yet processed, named from the map. */
  predicate NewRecord(tagMap: map<string, TeamInfo>, current: string, children: seq<string>, processed: set<string>, t: Team)
  {
    t.parentTeamTag == current && t.teamTag in children && t.teamTag !in processed
    && t.teamTag in tagMap && t.id == tagMap[t.teamTag].id && t.teamName == tagMap[t.teamTag].name
  }

  /** The inner loop over `adj[current]`. */
  method VisitChildren(ghost edges: seq<Edge>, top: string, tagMap: map<string, TeamInfo>, current: string,
                       children: seq<string>, processed: set<string>, queue0: seq<string>, found0: set<Team>)
    returns (queue: seq<string>, found: set<Team>, missing: Option<string>)
    requires SearchInv(edges, top, tagMap, queue0, processed, found0)
    requires current in processed && top in processed
    requires forall c :: c in children <==> Edge(c, current) in edges
    ensures missing.None? ==> SearchInv(edges, top, tagMap, queue, processed, found)
    ensures missing.None? ==> queue0 <= queue && forall k :: |queue0| <= k < |queue| ==> queue[k] in children
    ensures missing.None? ==> forall c :: c in children ==> c in processed || c in queue
    ensures missing.None? ==> forall t :: t in found <==> t in found0 || NewRecord(tagMap, current, children, processed, t)
    ensures missing.Some? ==> Descends(edges, top, missing.value) && missing.value != top && missing.value !in tagMap
  {
    queue, found := queue0, found0;
    var i := 0;
    while i < |children|
      invariant i <= |children|
      invariant SearchInv(edges, top, tagMap, queue, processed, found)
      invariant queue0 <= queue && forall k :: |queue0| <= k < |queue| ==> queue[k] in children
      invariant forall j :: 0 <= j < i ==> children[j] in processed || children[j] in queue
      invariant forall t :: t in found <==> t in found0 || NewRecord(tagMap, current, children[..i], processed, t)
    {
      var child := children[i];
      assert children[..i + 1] == children[..i] + [child];
      if child !in processed {
        assert Edge(child, current) in edges;
        DescendsStep(edges, top, current, child);
        if child !in tagMap {
          return queue, found, Some(child);
        }
        var info := tagMap[child];
        var record := Team(info.id, child, current, info.name);
        found := found + {record};
        queue := queue + [child];
        assert RecordOk(edges, top, tagMap, record);
        assert HasRecord(found, child);
      }
      i := i + 1;
    }
    assert children[..i] == children;
    return queue, found, None;
  }

  /** Every tag that can appear in the queue: the top tag and every child on an edge. */
  function Universe(edges: seq<Edge>, top: string): set<string>
  {
    {top} + set i | 0 <= i < |edges| :: edges[i].childTeamTag
  }

  lemma ChildInUniverse(edges: seq<Edge>, top: string, c: string, u: string)
    requires Edge(c, u) in edges
    ensures c in Universe(edges, top)
  {
    var i :| 0 <= i < |edges| && edges[i] == Edge(c, u);
  }

  /** Taking an already processed tag off the queue keeps everything. */
  lemma PopProcessed(edges: seq<Edge>, top: string, tagMap: map<string, TeamInfo>,
                     queue: seq<string>, processed: set<string>, found: set<Team>, order: seq<string>)
    requires |queue| > 0 && queue[0] in processed
    requires Invariant(edges, top, tagMap, queue, processed, found, order)
    ensures Invariant(edges, top, tagMap, queue[1..], processed, found, order)
  {
    forall u, c | u in processed && Edge(c, u) in edges ensures c in processed || c in queue[1..] {
      if c !in processed {
        assert c in queue && c != queue[0];
      }
    }
  }

  /** The queue after an expansion still holds only tags of the universe. */
  lemma QueueInUniverse(edges: seq<Edge>, top: string, queue: seq<string>, queue2: seq<string>)
    requires |queue| > 0 && forall k :: 0 <= k < |queue| ==> queue[k] in Universe(edges, top)
    requires queue[1..] <= queue2 && forall k :: |queue| - 1 <= k < |queue2| ==> Edge(queue2[k], queue[0]) in edges
    ensures forall k :: 0 <= k < |queue2| ==> queue2[k] in Universe(edges, top)
  {
    forall k | 0 <= k < |queue2| ensures queue2[k] in Universe(edges, top) {
      if k < |queue| - 1 {
        assert queue2[k] == queue[k + 1];
      } else {
        ChildInUniverse(edges, top, queue2[k], queue[0]);
      }
    }
  }

  /** Taking a new tag off the queue and marking it processed keeps the invariant. */
  lemma PopNew(edges: seq<Edge>, top: string, tagMap: map<string, TeamInfo>,
               queue: seq<string>, processed: set<string>, found: set<Team>)
    requires |queue| > 0
    requires SearchInv(edges, top, tagMap, queue, processed, found)
    ensures SearchInv(edges, top, tagMap, queue[1..], processed + {queue[0]}, found)
  {
  }

  /** After the children of `current` are queued, the processed set is closed again. */
  lemma ClosedAfterVisit(edges: seq<Edge>, queue: seq<string>, processed: set<string>, current: string,
                         rest: seq<string>, queue2: seq<string>)
    requires |queue| > 0 && queue[1..] == rest && current == queue[0]
    requires Closed(edges, queue, processed)
    requires rest <= queue2
    requires forall c :: Edge(c, current) in edges ==> c in processed + {current} || c in queue2
    ensures Closed(edges, queue2, processed + {current})
  {
    forall u, c | u in processed + {current} && Edge(c, u) in edges ensures c in processed + {current} || c in queue2 {
      if u != current && c !in processed && c != current {
        var k :| 0 <= k < |queue| && queue[k] == c;
        assert rest[k - 1] == c;
        assert queue2[k - 1] == c;
      }
    }
  }

  /** `u` was expanded, and `c` had not been expanded by then. */
  ghost predicate ExpandedBefore(order: seq<string>, u: string, c: string)
  {
    exists i :: 0 <= i < |order| && order[i] == u && c !in order[..i + 1]
  }

  /**
   * The records the search holds once `order` has been expanded: one per edge into a tag from
   * a parent expanded before that tag was, named from the map.
   */
  ghost predicate Expected(edges: seq<Edge>, tagMap: map<string, TeamInfo>, order: seq<string>, t: Team)
  {
    Edge(t.teamTag, t.parentTeamTag) in edges && ExpandedBefore(order, t.parentTeamTag, t.teamTag)
    && t.teamTag in tagMap && t.id == tagMap[t.teamTag].id && t.teamName == tagMap[t.teamTag].name
  }

  predicate DistinctTags(order: seq<string>)
  {
    forall i, j :: 0 <= i < j < |order| ==> order[i] != order[j]
  }

  lemma ExpandedBeforeAppend(order: seq<string>, current: string, u: string, c: string)
    requires current !in order
    ensures ExpandedBefore(order + [current], u, c)
            <==> ExpandedBefore(order, u, c) || (u == current && c !in order + [current])
  {
    var order2 := order + [current];
    if ExpandedBefore(order, u, c) {
      var i :| 0 <= i < |order| && order[i] == u && c !in order[..i + 1];
      assert order2[..i + 1] == order[..i + 1] && order2[i] == u;
    }
    if u == current && c !in order2 {
      assert order2[..|order| + 1] == order2 && order2[|order|] == u;
    }
    if ExpandedBefore(order2, u, c) {
      var i :| 0 <= i < |order2| && order2[i] == u && c !in order2[..i + 1];
      if i < |order| {
        assert order2[..i + 1] == order[..i + 1] && order[i] == u;
        assert ExpandedBefore(order, u, c);
      } else {
        assert order2[..i + 1] == order2 && u == current;
        assert c !in order + [current];
      }
    }
  }

  /** Expanding `current` adds exactly the records `Expected` asks of it. */
  lemma ExpectedAfterVisit(edges: seq<Edge>, tagMap: map<string, TeamInfo>, order: seq<string>, current: string,
                           children: seq<string>, processed: set<string>, found0: set<Team>, found: set<Team>)
    requires current !in order
    requires forall x :: x in processed <==> x in order + [current]
    requires forall c :: c in children <==> Edge(c, current) in edges
    requires forall t :: t in found0 <==> Expected(edges, tagMap, order, t)
    requires forall t :: t in found <==> t in found0 || NewRecord(tagMap, current, children, processed, t)
    ensures forall t :: t in found <==> Expected(edges, tagMap, order + [current], t)
  {
    forall t ensures t in found <==> Expected(edges, tagMap, order + [current], t) {
      ExpandedBeforeAppend(order, current, t.parentTeamTag, t.teamTag);
    }
  }

  /** Everything the queue loop keeps; `order` lists the expanded tags in expansion order. */
  ghost predicate Invariant(edges: seq<Edge>, top: string, tagMap: map<string, TeamInfo>,
                            queue: seq<string>, processed: set<string>, found: set<Team>, order: seq<string>)
  {
    SearchInv(edges, top, tagMap, queue, processed, found)
    && (top in processed || (processed == {} && queue == [top]))
    && ((processed == {} && order == []) || (|order| > 0 && order[0] == top))
    && DistinctTags(order) && (forall x :: x in processed <==> x in order)
    && (forall t :: t in found <==> Expected(edges, tagMap, order, t))
    && Closed(edges, queue, processed)
  }

  /** One turn of the queue loop on a tag not yet processed: mark it, then visit its children. */
  method Expand(ghost edges: seq<Edge>, top: string, adj: map<string, seq<string>>, tagMap: map<string, TeamInfo>,
                queue: seq<string>, processed: set<string>, found: set<Team>, ghost order: seq<string>)
    returns (queue2: seq<string>, processed2: set<string>, found2: set<Team>, missing: Option<string>, ghost order2: seq<string>)
    requires adj == Adjacency(edges)
    requires |queue| > 0 && queue[0] !in processed
    requires Invariant(edges, top, tagMap, queue, processed, found, order)
    ensures processed2 == processed + {queue[0]}
    ensures missing.None? ==> Invariant(edges, top, tagMap, queue2, processed2, found2, order2)
    ensures missing.None? ==> queue[1..] <= queue2 && forall k :: |queue| - 1 <= k < |queue2| ==> Edge(queue2[k], queue[0]) in edges
    ensures missing.Some? ==> Descends(edges, top, missing.value) && missing.value != top && missing.value !in tagMap
  {
    var current := queue[0];
    PopNew(edges, top, tagMap, queue, processed, found);
    var rest := queue[1..];
    processed2 := processed + {current};
    AdjacencyAt(edges, current);
    var children := if current in adj then adj[current] else [];
    assert forall c :: c in children <==> Edge(c, current) in edges;
    queue2, found2, missing := VisitChildren(edges, top, tagMap, current, children, processed2, rest, found);
    order2 := order + [current];
    if missing.None? {
      ExpectedAfterVisit(edges, tagMap, order, current, children, processed2, found, found2);
      ClosedAfterVisit(edges, queue, processed, current, rest, queue2);
    }
  }

  /** With the queue empty, the processed tags are the top tag and everything below it. */
  lemma SearchDone(edges: seq<Edge>, top: string, tagMap: map<string, TeamInfo>,
                   processed: set<string>, found: set<Team>, order: seq<string>)
    requires Invariant(edges, top, tagMap, [], processed, found, order)
    ensures |order| > 0 && order[0] == top && DistinctTags(order)
    ensures forall v :: v in order <==> ReachedFrom(edges, top, v)
    ensures forall t :: t in found <==> Expected(edges, tagMap, order, t)
    ensures forall t :: t in found ==> RecordOk(edges, top, tagMap, t)
    ensures forall v :: Descends(edges, top, v) && v != top ==> HasRecord(found, v)
  {
    ClosedHoldsDescendants(edges, top, processed);
  }

  /** The while loop over the queue: the descendants set, or the first reached tag missing from the map. */
  method Search(top: string, edges: seq<Edge>, adj: map<string, seq<string>>, tagMap: map<string, TeamInfo>)
    returns (r: Result<set<Team>, TeamError>, ghost order: seq<string>)
    requires adj == Adjacency(edges)
    ensures r.Ok? ==> |order| > 0 && order[0] == top && DistinctTags(order)
    ensures r.Ok? ==> forall v :: v in order <==> ReachedFrom(edges, top, v)
    ensures r.Ok? ==> forall t :: t in r.value <==> Expected(edges, tagMap, order, t)
    ensures r.Ok? ==> forall t :: t in r.value ==> RecordOk(edges, top, tagMap, t)
    ensures r.Ok? ==> forall v :: Descends(edges, top, v) && v != top ==> HasRecord(r.value, v)
    ensures r.Err? ==> r.error.MissingTeam? && Descends(edges, top, r.error.tag) && r.error.tag != top && r.error.tag !in tagMap
  {
    ghost var universe := Universe(edges, top);
    var queue := [top];
    var processed: set<string> := {};
    var found: set<Team> := {};
    order := [];
    while |queue| > 0
      invariant Invariant(edges, top, tagMap, queue, processed, found, order)
      invariant processed <= universe && forall k :: 0 <= k < |queue| ==> queue[k] in universe
      decreases |universe - processed|, |queue|
    {
      var current := queue[0];
      if current in processed {
        PopProcessed(edges, top, tagMap, queue, processed, found, order);
        queue := queue[1..];
      } else {
        var q, p, f, missing, o := Expand(edges, top, adj, tagMap, queue, processed, found, order);
        if missing.Some? {
          return Err(MissingTeam(missing.value)), o;
        }
        assert universe - p < universe - processed;
        QueueInUniverse(edges, top, queue, q);
        queue, processed, found, order := q, p, f, o;
      }
    }
    SearchDone(edges, top, tagMap, processed, found, order);
    return Ok(found), order;
  }

  // ---------------------------------------------------------------- sorted by team_tag

  predicate SortedByTag(r: seq<Team>)
  {
    forall i, j :: 0 <= i < j < |r| ==> !LexLess(r[j].teamTag, r[i].teamTag)
  }

  predicate Distinct(r: seq<Team>)
  {
    forall i, j :: 0 <= i < j < |r| ==> r[i] != r[j]
  }

  /** A finite set of teams has one whose tag no other tag precedes. */
  lemma MinimumExists(s: set<Team>)
    requires s != {}
    ensures exists m :: m in s && forall y :: y in s ==> !LexLess(y.teamTag, m.teamTag)
    decreases |s|
  {
    var x :| x in s;
    var rest := s - {x};
    if rest == {} {
      LexLessIrreflexive(x.teamTag);
      assert s == {x};
    } else {
      MinimumExists(rest);
      var m :| m in rest && forall y :: y in rest ==> !LexLess(y.teamTag, m.teamTag);
      if LexLess(x.teamTag, m.teamTag) {
        forall y | y in s ensures !LexLess(y.teamTag, x.teamTag) {
          if y == x {
            LexLessIrreflexive(x.teamTag);
          } else if LexLess(y.teamTag, x.teamTag) {
            LexLessTransitive(y.teamTag, x.teamTag, m.teamTag);
          }
        }
      } else {
        forall y | y in s ensures !LexLess(y.teamTag, m.teamTag) {
          if y != x {
            assert y in rest;
          }
        }
      }
    }
  }

  /** `sorted(list(descendents), key=team_tag)`: every record once, ordered by tag. */
  method SortByTag(s: set<Team>) returns (r: seq<Team>)
    ensures forall t :: t in r <==> t in s
    ensures Distinct(r) && SortedByTag(r)
  {
    r := [];
    var rest := s;
    while rest != {}
      invariant forall t :: t in s <==> t in r || t in rest
      invariant forall t :: t in r ==> t !in rest
      invariant Distinct(r) && SortedByTag(r)
      invariant forall k, y :: 0 <= k < |r| && y in rest ==> !LexLess(y.teamTag, r[k].teamTag)
      decreases |rest|
    {
      MinimumExists(rest);
      var m :| m in rest && forall y :: y in rest ==> !LexLess(y.teamTag, m.teamTag);
      r := r + [m];
      rest := rest - {m};
    }
  }

  /**
   * get_descendant_teams. On success the records' tags are exactly the tags one or more
   * edges below the top tag, the top tag itself excluded even when a cycle returns to it;
   * each record's parent has an edge into it and its id and name come from the map; the list
   * is sorted by tag. `order` is the order in which the search expanded the tags: the records
   * are one per edge into a tag from a parent expanded before that tag was. The search fails
   * exactly when a tag below the top has no entry in the map.
   */
  method GetDescendantTeams(top: string, edges: seq<Edge>, tagMap: map<string, TeamInfo>)
    returns (r: Result<seq<Team>, TeamError>, ghost order: seq<string>)
    ensures r.Ok? <==> forall v :: Descends(edges, top, v) && v != top ==> v in tagMap
    ensures r.Ok? ==> forall v :: (exists k :: 0 <= k < |r.value| && r.value[k].teamTag == v) <==> Descends(edges, top, v) && v != top
    ensures r.Ok? ==> forall k :: 0 <= k < |r.value| ==> RecordOk(edges, top, tagMap, r.value[k])
    ensures r.Ok? ==> Distinct(r.value) && SortedByTag(r.value)
    ensures r.Ok? ==> |order| > 0 && order[0] == top && DistinctTags(order)
    ensures r.Ok? ==> forall v :: v in order <==> ReachedFrom(edges, top, v)
    ensures r.Ok? ==> forall t :: t in r.value <==> Expected(edges, tagMap, order, t)
    ensures r.Err? ==> r.error.MissingTeam? && Descends(edges, top, r.error.tag) && r.error.tag != top && r.error.tag !in tagMap
  {
    var adj := BuildAdjacency(edges);
    var found;
    found, order := Search(top, edges, adj, tagMap);
    if found.Err? {
      return Err(found.error), order;
    }
    var sorted := SortByTag(found.value);
    forall v | Descends(edges, top, v) && v != top ensures exists k :: 0 <= k < |sorted| && sorted[k].teamTag == v {
      var t :| t in found.value && t.teamTag == v;
      var k :| 0 <= k < |sorted| && sorted[k] == t;
    }
    forall k | 0 <= k < |sorted| ensures RecordOk(edges, top, tagMap, sorted[k]) {
      assert sorted[k] in found.value;
    }
    return Ok(sorted), order;
  }
}
