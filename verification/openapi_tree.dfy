/**
 * openapi_to_tree.py: the nested path-segment tree built from an OpenAPI document, and the
 * validation in front of it. Loading the YAML or JSON text is a parameter (the value the
 * loader produced, or None when it raised).
 *
 * The nested dict is held flattened: one entry per key path from the root, saying whether
 * the key maps to a further dict (Branch) or to None (Leaf), in insertion order. A node's
 * children are the entries one segment longer, so the per-dict insertion order is kept.
 * The cursor `current_level` is the key path of the dict it points into; it is None once
 * the walk reaches a None value.
 */
module OpenApiTree {
  import opened Wrappers
  import opened Strs
  import opened JsonValue

  datatype Node = Branch | Leaf

  type Tree = seq<(seq<string>, Node)>

  datatype TreeError =
    | UnsupportedContentType
    | ParseFailed
    | NotADictionary
    | MissingPaths
    /** A TypeError or AttributeError raised inside generate_api_tree. */
    | Raised

  // ---------------------------------------------------------------- path segments

  /** The list comprehension that drops empty pieces. */
  function NonEmpty(pieces: seq<string>): (r: seq<string>)
    ensures forall k :: 0 <= k < |r| ==> |r[k]| > 0 && r[k] in pieces
  {
    if |pieces| == 0 then []
    else (if |pieces[0]| > 0 then [pieces[0]] else []) + NonEmpty(pieces[1..])
  }

  /** The segments of a path: its `/`-separated pieces without the empty ones. */
  function Segments(path: string): (r: seq<string>)
    ensures forall k :: 0 <= k < |r| ==> |r[k]| > 0 && '/' !in r[k]
  {
    NonEmpty(SplitOn(path, '/'))
  }

  lemma {:induction false} NonEmptyAppend(a: seq<string>, b: seq<string>)
    ensures NonEmpty(a + b) == NonEmpty(a) + NonEmpty(b)
  {
    if |a| > 0 {
      assert (a + b)[1..] == a[1..] + b;
      NonEmptyAppend(a[1..], b);
    } else {
      assert a + b == b;
    }
  }

  lemma SegmentsOfEmpty()
    ensures Segments("") == []
  {
    assert SplitOn("", '/') == [""];
  }

  /** Slashes only separate: the segments of `a/b` are those of `a` followed by those of `b`. */
  lemma SegmentsSplit(a: string, b: string)
    ensures Segments(a + "/" + b) == Segments(a) + Segments(b)
  {
    assert a + "/" + b == a + ['/'] + b;
    SplitOnSeparator(a, b, '/');
    NonEmptyAppend(SplitOn(a, '/'), SplitOn(b, '/'));
  }

  /** Leading, trailing and doubled slashes do not change the segments. */
  lemma SlashesIgnored(a: string, p: string)
    ensures Segments("/" + p) == Segments(p)
    ensures Segments(p + "/") == Segments(p)
    ensures Segments(a + "//" + p) == Segments(a + "/" + p)
  {
    LeadingSlash(p);
    SegmentsOfEmpty();
    assert p + "/" == p + "/" + "";
    SegmentsSplit(p, "");
    assert Segments(p) + [] == Segments(p);
    var q := "/" + p;
    assert a + "//" + p == a + "/" + q;
    SegmentsSplit(a, q);
    SegmentsSplit(a, p);
  }

  lemma LeadingSlash(p: string)
    ensures Segments("/" + p) == Segments(p)
  {
    SegmentsOfEmpty();
    assert "/" + p == "" + "/" + p;
    SegmentsSplit("", p);
    assert [] + Segments(p) == Segments(p);
  }

  /** Joining non-empty, slash-free segments with `/` gives back the same segments. */
  lemma {:induction false} SegmentsJoin(segs: seq<string>)
    requires forall k :: 0 <= k < |segs| ==> |segs[k]| > 0 && '/' !in segs[k]
    ensures Segments(Join(segs, "/")) == segs
  {
    if |segs| == 0 {
      SegmentsOfEmpty();
    } else {
      assert SplitOn(segs[0], '/') == [segs[0]];
      assert NonEmpty([segs[0]]) == [segs[0]];
      if |segs| > 1 {
        SegmentsJoin(segs[1..]);
        SegmentsSplit(segs[0], Join(segs[1..], "/"));
        assert Join(segs, "/") == segs[0] + "/" + Join(segs[1..], "/");
        assert segs == [segs[0]] + segs[1..];
      }
    }
  }

  // ---------------------------------------------------------------- the flattened dict

  /** `key in current_level`: the position of the entry for a key path. */
  function Find(t: Tree, key: seq<string>): (r: Option<nat>)
    ensures r.Some? ==> r.value < |t| && t[r.value].0 == key
    ensures r.Some? ==> forall j :: 0 <= j < r.value ==> t[j].0 != key
    ensures r.None? ==> forall j :: 0 <= j < |t| ==> t[j].0 != key
  {
    if |t| == 0 then None
    else if t[0].0 == key then Some(0)
    else match Find(t[1..], key)
      case None => None
      case Some(i) => Some(i + 1)
  }

  function Lookup(t: Tree, key: seq<string>): Option<Node>
  {
    match Find(t, key)
    case None => None
    case Some(i) => Some(t[i].1)
  }

  /** `key` lies strictly inside the subtree at `p`. */
  predicate Below(key: seq<string>, p: seq<string>)
  {
    |key| > |p| && key[..|p|] == p
  }

  /** The entries that stay reachable once the dict at `p` is replaced by None. */
  function Prune(t: Tree, p: seq<string>): (r: Tree)
    ensures |r| <= |t|
  {
    if |t| == 0 then []
    else (if Below(t[0].0, p) then [] else [t[0]]) + Prune(t[1..], p)
  }

  function Parent(key: seq<string>): seq<string>
    requires |key| > 0
  {
    key[..|key| - 1]
  }

  /** Every key path occurs at most once. */
  predicate UniqueKeys(t: Tree)
  {
    forall i, j :: 0 <= i < j < |t| ==> t[i].0 != t[j].0
  }

  /** A key of the root dict, or a key inside a nested dict (never inside a None). */
  predicate HangsBelowDict(t: Tree, key: seq<string>)
  {
    |key| > 0 && (|key| == 1 || Lookup(t, Parent(key)) == Some(Branch))
  }

  /** The entries form a nested dict: every key path occurs once and hangs below a dict. */
  predicate Valid(t: Tree)
  {
    UniqueKeys(t) && forall i :: 0 <= i < |t| ==> HangsAt(t, i)
  }

  predicate HangsAt(t: Tree, i: nat)
    requires i < |t|
  {
    HangsBelowDict(t, t[i].0)
  }

  /** A valid cursor: the root, or a key path that maps to a dict. */
  predicate IsDict(t: Tree, at: seq<string>)
  {
    at == [] || Lookup(t, at) == Some(Branch)
  }

  lemma {:induction false} LookupAppend(t: Tree, e: (seq<string>, Node), key: seq<string>)
    ensures Lookup(t + [e], key) == if Lookup(t, key).Some? then Lookup(t, key) else if e.0 == key then Some(e.1) else None
  {
    if |t| > 0 {
      assert (t + [e])[1..] == t[1..] + [e];
      LookupAppend(t[1..], e, key);
    }
  }

  lemma {:induction false} LookupUpdate(t: Tree, i: nat, p: seq<string>, v: Node, key: seq<string>)
    requires Find(t, p) == Some(i)
    ensures Lookup(t[i := (p, v)], key) == if key == p then Some(v) else Lookup(t, key)
  {
    if i > 0 {
      assert t[i := (p, v)][1..] == t[1..][i - 1 := (p, v)];
      LookupUpdate(t[1..], i - 1, p, v, key);
    }
  }

  lemma {:induction false} LookupPrune(t: Tree, p: seq<string>, key: seq<string>)
    ensures Lookup(Prune(t, p), key) == if Below(key, p) then None else Lookup(t, key)
  {
    if |t| > 0 {
      LookupPrune(t[1..], p, key);
      if Below(t[0].0, p) {
        assert Prune(t, p) == Prune(t[1..], p);
      } else {
        assert Prune(t, p) == [t[0]] + Prune(t[1..], p);
        assert (Prune(t, p))[1..] == Prune(t[1..], p);
      }
    }
  }

  /** Every entry that survives pruning is an entry of the original, outside the subtree. */
  lemma {:induction false} PruneEntries(t: Tree, p: seq<string>)
    ensures forall k :: 0 <= k < |Prune(t, p)| ==> Prune(t, p)[k] in t && !Below(Prune(t, p)[k].0, p)
    ensures UniqueKeys(t) ==> UniqueKeys(Prune(t, p))
  {
    if |t| > 0 {
      PruneEntries(t[1..], p);
      var rest := Prune(t[1..], p);
      if !Below(t[0].0, p) {
        assert Prune(t, p) == [t[0]] + rest;
        if UniqueKeys(t) {
          forall k | 0 <= k < |rest| ensures rest[k].0 != t[0].0 {
            var m :| 0 <= m < |t[1..]| && t[1..][m] == rest[k];
            assert t[m + 1] == rest[k];
          }
        }
      }
    }
  }

  // ---------------------------------------------------------------- one path

  /** One step of the segment walk: reuse the child dict, add an empty one, or reach a None. */
  function DescendStep(t: Tree, at: seq<string>, segment: string): (Tree, Option<seq<string>>)
  {
    var key := at + [segment];
    match Find(t, key)
    case None => (t + [(key, Branch)], Some(key))
    case Some(i) => if t[i].1 == Branch then (t, Some(key)) else (t, None)
  }

  /** The walk over a path's segments from the root; `segment in None` raises. */
  function Descend(t: Tree, segs: seq<string>): (r: Result<(Tree, Option<seq<string>>), TreeError>)
  {
    if |segs| == 0 then Ok((t, Some([])))
    else
      match Descend(t, segs[..|segs| - 1])
      case Err(e) => Err(e)
      case Ok((t1, cursor)) =>
        if cursor.None? then Err(Raised) else Ok(DescendStep(t1, cursor.value, segs[|segs| - 1]))
  }

  /** The leaf key of a path-item key: upper-cased inside brackets. */
  function LeafKey(key: string): (r: string)
    ensures |r| == |key| + 2 && r[0] == '[' && r[|r| - 1] == ']'
  {
    "[" + Upper(key) + "]"
  }

  /** `current_level["[KEY]"] = None`: the key now maps to None, dropping any dict it held. */
  function MarkStep(t: Tree, at: seq<string>, pathItemKey: string): Tree
  {
    var key := at + [LeafKey(pathItemKey)];
    match Find(t, key)
    case None => t + [(key, Leaf)]
    case Some(i) => Prune(t[i := (key, Leaf)], key)
  }

  function MarkAll(t: Tree, at: seq<string>, methods: seq<string>): Tree
  {
    if |methods| == 0 then t
    else MarkStep(MarkAll(t, at, methods[..|methods| - 1]), at, methods[|methods| - 1])
  }

  /**
   * What `for method_key in methods` visits, when every visited item has `.upper()`: the
   * keys of a dict, the items of a list of strings, the characters of a string. None when
   * the loop raises.
   */
  function MethodKeys(methods: Json): (r: Option<seq<string>>)
    ensures methods.JObj? ==> r == Some(Keys(methods.fields))
    ensures methods.JNull? || methods.JBool? || methods.JNum? ==> r.None?
  {
    match methods
    case JObj(fields) => Some(Keys(fields))
    case JStr(s) => Some(seq(|s|, i requires 0 <= i < |s| => [s[i]]))
    case JArr(items) =>
      if forall i :: 0 <= i < |items| ==> items[i].JStr?
      then Some(seq(|items|, i requires 0 <= i < |items| => items[i].s))
      else None
    case _ => None
  }

  /** One iteration of the loop over `paths.items()`. */
  function InsertPath(t: Tree, path: string, methods: Json): Result<Tree, TreeError>
  {
    match Descend(t, Segments(path))
    case Err(e) => Err(e)
    case Ok((t1, cursor)) =>
      match MethodKeys(methods)
      case None => Err(Raised)
      case Some(keys) =>
        if |keys| == 0 then Ok(t1)
        else if cursor.None? then Err(Raised)
        else Ok(MarkAll(t1, cursor.value, keys))
  }

  /** The loop over the path items, in document order; the first exception ends it. */
  function BuildTree(t: Tree, items: seq<(string, Json)>): Result<Tree, TreeError>
  {
    if |items| == 0 then Ok(t)
    else
      match BuildTree(t, items[..|items| - 1])
      case Err(e) => Err(e)
      case Ok(t1) => InsertPath(t1, items[|items| - 1].0, items[|items| - 1].1)
  }

  /** generate_api_tree: `paths` defaults to an empty dict and must be a dict. */
  function ApiTree(spec: Json): (r: Result<Tree, TreeError>)
    requires spec.JObj?
    ensures !HasKey(spec, "paths") ==> r == Ok([])
  {
    var paths := GetOr(spec.fields, "paths", JObj([]));
    if !paths.JObj? then Err(Raised) else BuildTree([], paths.fields)
  }

  // ---------------------------------------------------------------- dispatch

  /**
   * get_openapi_path_tree_from_content. `loaded` is what yaml.safe_load or json.loads
   * returned for the content, or None when it raised.
   */
  function TreeFromContent(contentType: string, loaded: Option<Json>): (r: Result<Tree, TreeError>)
    ensures r == Err(UnsupportedContentType) <==> Lower(contentType) != "yaml" && Lower(contentType) != "json"
    ensures r == Err(ParseFailed) <==> (Lower(contentType) == "yaml" || Lower(contentType) == "json") && loaded.None?
    ensures r == Err(NotADictionary)
            <==> (Lower(contentType) == "yaml" || Lower(contentType) == "json") && loaded.Some? && !loaded.value.JObj?
    ensures r == Err(MissingPaths)
            <==> (Lower(contentType) == "yaml" || Lower(contentType) == "json") && loaded.Some? && loaded.value.JObj?
                 && !HasKey(loaded.value, "paths")
    ensures r.Ok? ==> loaded.Some? && loaded.value.JObj? && HasKey(loaded.value, "paths") && r == ApiTree(loaded.value)
  {
    var kind := Lower(contentType);
    if kind != "yaml" && kind != "json" then Err(UnsupportedContentType)
    else if loaded.None? then Err(ParseFailed)
    else if !loaded.value.JObj? then Err(NotADictionary)
    else if !HasKey(loaded.value, "paths") then Err(MissingPaths)
    else
      var r := ApiTree(loaded.value);
      assert r != Err(UnsupportedContentType) && r != Err(ParseFailed) by { ApiTreeErrors(loaded.value); }
      assert r != Err(NotADictionary) && r != Err(MissingPaths) by { ApiTreeErrors(loaded.value); }
      r
  }

  /** The tree builder itself only ever raises. */
  lemma ApiTreeErrors(spec: Json)
    requires spec.JObj?
    ensures ApiTree(spec).Err? ==> ApiTree(spec) == Err(Raised)
  {
    var paths := GetOr(spec.fields, "paths", JObj([]));
    if paths.JObj? {
      BuildTreeErrors([], paths.fields);
    }
  }

  lemma {:induction false} BuildTreeErrors(t: Tree, items: seq<(string, Json)>)
    ensures BuildTree(t, items).Err? ==> BuildTree(t, items) == Err(Raised)
  {
    if |items| > 0 {
      BuildTreeErrors(t, items[..|items| - 1]);
      match BuildTree(t, items[..|items| - 1])
      case Err(_) =>
      case Ok(t1) =>
        var path := items[|items| - 1].0;
        DescendErrors(t1, Segments(path));
    }
  }

  lemma {:induction false} DescendErrors(t: Tree, segs: seq<string>)
    ensures Descend(t, segs).Err? ==> Descend(t, segs) == Err(Raised)
  {
    if |segs| > 0 {
      DescendErrors(t, segs[..|segs| - 1]);
    }
  }

  // ---------------------------------------------------------------- the tree stays a nested dict

  lemma ValidAppend(t: Tree, at: seq<string>, name: string, v: Node)
    requires Valid(t) && IsDict(t, at) && Find(t, at + [name]).None?
    ensures Valid(t + [(at + [name], v)])
  {
    var e := (at + [name], v);
    var t2 := t + [e];
    forall i | 0 <= i < |t2| ensures HangsAt(t2, i) {
      if i < |t| {
        assert HangsAt(t, i);
        if |t[i].0| > 1 {
          LookupAppend(t, e, Parent(t[i].0));
        }
      } else {
        assert Parent(e.0) == at;
        LookupAppend(t, e, at);
      }
    }
  }

  /** Replacing a dict by None and dropping its subtree leaves a nested dict. */
  lemma ValidMarkExisting(t: Tree, i: nat, key: seq<string>)
    requires Valid(t) && Find(t, key) == Some(i)
    ensures Valid(Prune(t[i := (key, Leaf)], key))
  {
    var t1 := t[i := (key, Leaf)];
    var r := Prune(t1, key);
    assert UniqueKeys(t1) by {
      assert forall j :: 0 <= j < |t| ==> t1[j].0 == t[j].0;
    }
    PruneEntries(t1, key);
    forall m | 0 <= m < |r| ensures HangsAt(r, m) {
      var idx :| 0 <= idx < |t1| && t1[idx] == r[m];
      ParentSurvives(t, i, key, idx);
    }
  }

  lemma ParentSurvives(t: Tree, i: nat, key: seq<string>, idx: nat)
    requires Valid(t) && Find(t, key) == Some(i) && idx < |t|
    requires !Below(t[idx].0, key)
    ensures HangsBelowDict(Prune(t[i := (key, Leaf)], key), t[idx].0)
  {
    var k := t[idx].0;
    assert HangsAt(t, idx);
    if |k| > 1 {
      var q := Parent(k);
      assert q != key && !Below(q, key);
      LookupPrune(t[i := (key, Leaf)], key, q);
      LookupUpdate(t, i, key, Leaf, q);
    }
  }

  /** Every key `t` has still maps to what it mapped to in `t`. */
  ghost predicate Keeps(t: Tree, t2: Tree)
  {
    forall x :: Lookup(t, x).Some? ==> Lookup(t2, x) == Lookup(t, x)
  }

  /** Every key outside the subtree at `p` maps to what it mapped to in `t`. */
  ghost predicate SameOutside(t: Tree, t2: Tree, p: seq<string>)
  {
    forall x :: !Below(x, p) ==> Lookup(t2, x) == Lookup(t, x)
  }

  /** Each non-empty prefix of `segs` is a nested dict. */
  predicate AllBranches(t: Tree, segs: seq<string>)
  {
    forall j :: 1 <= j <= |segs| ==> Lookup(t, segs[..j]) == Some(Branch)
  }

  lemma KeepsAppend(t: Tree, e: (seq<string>, Node))
    ensures Keeps(t, t + [e])
  {
    forall x | Lookup(t, x).Some? ensures Lookup(t + [e], x) == Lookup(t, x) {
      LookupAppend(t, e, x);
    }
  }

  /** A walk step keeps the tree a nested dict. */
  lemma DescendStepValid(t: Tree, at: seq<string>, segment: string)
    requires Valid(t) && IsDict(t, at)
    ensures Valid(DescendStep(t, at, segment).0)
  {
    if Find(t, at + [segment]).None? {
      ValidAppend(t, at, segment, Branch);
    }
  }

  /** A walk step changes no existing entry and moves the cursor one level down, onto a dict. */
  lemma DescendStepLookups(t: Tree, at: seq<string>, segment: string)
    ensures Keeps(t, DescendStep(t, at, segment).0)
    ensures DescendStep(t, at, segment).1.Some? ==>
              DescendStep(t, at, segment).1.value == at + [segment]
              && Lookup(DescendStep(t, at, segment).0, at + [segment]) == Some(Branch)
    ensures DescendStep(t, at, segment).1.None? ==> Lookup(t, at + [segment]) == Some(Leaf)
  {
    var key := at + [segment];
    if Find(t, key).None? {
      KeepsAppend(t, (key, Branch));
      LookupAppend(t, (key, Branch), key);
    }
  }

  lemma AllBranchesExtend(t: Tree, t2: Tree, segs: seq<string>)
    requires |segs| > 0 && AllBranches(t, segs[..|segs| - 1]) && Keeps(t, t2)
    requires Lookup(t2, segs) == Some(Branch)
    ensures AllBranches(t2, segs)
  {
    var init := segs[..|segs| - 1];
    forall j | 1 <= j <= |segs| ensures Lookup(t2, segs[..j]) == Some(Branch) {
      if j < |segs| {
        assert segs[..j] == init[..j];
      } else {
        assert segs[..j] == segs;
      }
    }
  }

  lemma KeepsTransitive(t: Tree, t1: Tree, t2: Tree)
    requires Keeps(t, t1) && Keeps(t1, t2)
    ensures Keeps(t, t2)
  {
  }

  /**
   * The whole walk changes no existing entry, and a walk that ends on a dict ends on the
   * path's own node with every prefix a dict.
   */
  lemma {:induction false} DescendLookups(t: Tree, segs: seq<string>)
    requires Descend(t, segs).Ok?
    ensures Keeps(t, Descend(t, segs).value.0)
    ensures Descend(t, segs).value.1.Some? ==>
              Descend(t, segs).value.1.value == segs && AllBranches(Descend(t, segs).value.0, segs)
  {
    if |segs| > 0 {
      var n := |segs|;
      var init := segs[..n - 1];
      DescendLookups(t, init);
      var t1 := Descend(t, init).value.0;
      DescendStepLookups(t1, init, segs[n - 1]);
      var t2 := DescendStep(t1, init, segs[n - 1]).0;
      assert init + [segs[n - 1]] == segs;
      KeepsTransitive(t, t1, t2);
      if DescendStep(t1, init, segs[n - 1]).1.Some? {
        AllBranchesExtend(t1, t2, segs);
      }
    }
  }

  /** A cursor the walk produced points at a dict. */
  lemma CursorIsDict(t: Tree, segs: seq<string>)
    requires Descend(t, segs).Ok? && Descend(t, segs).value.1.Some?
    ensures Descend(t, segs).value.1.value == segs && IsDict(Descend(t, segs).value.0, segs)
  {
    DescendLookups(t, segs);
    if |segs| > 0 {
      assert segs[..|segs|] == segs;
    }
  }

  /** The whole walk keeps the tree a nested dict. */
  lemma {:induction false} DescendValid(t: Tree, segs: seq<string>)
    requires Valid(t) && Descend(t, segs).Ok?
    ensures Valid(Descend(t, segs).value.0)
  {
    if |segs| > 0 {
      var n := |segs|;
      var init := segs[..n - 1];
      DescendValid(t, init);
      CursorIsDict(t, init);
      DescendStepValid(Descend(t, init).value.0, init, segs[n - 1]);
    }
  }

  /** Marking a leaf keeps the tree a nested dict. */
  lemma MarkStepValid(t: Tree, at: seq<string>, pathItemKey: string)
    requires Valid(t) && IsDict(t, at)
    ensures Valid(MarkStep(t, at, pathItemKey))
  {
    var key := at + [LeafKey(pathItemKey)];
    match Find(t, key)
    case None =>
      ValidAppend(t, at, LeafKey(pathItemKey), Leaf);
    case Some(i) =>
      ValidMarkExisting(t, i, key);
  }

  /** Marking a leaf touches nothing outside that key's subtree. */
  lemma MarkStepLookups(t: Tree, at: seq<string>, pathItemKey: string)
    ensures Lookup(MarkStep(t, at, pathItemKey), at + [LeafKey(pathItemKey)]) == Some(Leaf)
    ensures forall x :: x != at + [LeafKey(pathItemKey)] && !Below(x, at + [LeafKey(pathItemKey)])
                        ==> Lookup(MarkStep(t, at, pathItemKey), x) == Lookup(t, x)
  {
    var key := at + [LeafKey(pathItemKey)];
    match Find(t, key)
    case None =>
      LookupAppend(t, (key, Leaf), key);
      forall x | x != key ensures Lookup(t + [(key, Leaf)], x) == Lookup(t, x) {
        LookupAppend(t, (key, Leaf), x);
      }
    case Some(i) =>
      assert !Below(key, key);
      LookupPrune(t[i := (key, Leaf)], key, key);
      LookupUpdate(t, i, key, Leaf, key);
      forall x | x != key && !Below(x, key) ensures Lookup(Prune(t[i := (key, Leaf)], key), x) == Lookup(t, x) {
        LookupPrune(t[i := (key, Leaf)], key, x);
        LookupUpdate(t, i, key, Leaf, x);
      }
  }

  /** Marking every key leaves each a leaf at the node, and nothing outside the node's subtree changes. */
  lemma {:induction false} MarkAllLookups(t: Tree, at: seq<string>, keys: seq<string>)
    ensures forall k :: 0 <= k < |keys| ==> Lookup(MarkAll(t, at, keys), at + [LeafKey(keys[k])]) == Some(Leaf)
    ensures SameOutside(t, MarkAll(t, at, keys), at)
  {
    if |keys| > 0 {
      var n := |keys|;
      MarkAllLookups(t, at, keys[..n - 1]);
      var t1 := MarkAll(t, at, keys[..n - 1]);
      MarkStepLookups(t1, at, keys[n - 1]);
      var t2 := MarkStep(t1, at, keys[n - 1]);
      var key := at + [LeafKey(keys[n - 1])];
      forall x | !Below(x, at) ensures Lookup(t2, x) == Lookup(t, x) {
        assert x != key && !Below(x, key);
      }
      forall k | 0 <= k < n ensures Lookup(t2, at + [LeafKey(keys[k])]) == Some(Leaf) {
        if k < n - 1 {
          assert keys[..n - 1][k] == keys[k];
          var k2 := at + [LeafKey(keys[k])];
          assert k2 == key || !Below(k2, key);
        }
      }
    }
  }

  lemma {:induction false} MarkAllValid(t: Tree, at: seq<string>, keys: seq<string>)
    requires Valid(t) && IsDict(t, at)
    ensures Valid(MarkAll(t, at, keys))
  {
    if |keys| > 0 {
      var n := |keys|;
      MarkAllValid(t, at, keys[..n - 1]);
      MarkAllLookups(t, at, keys[..n - 1]);
      var t1 := MarkAll(t, at, keys[..n - 1]);
      assert IsDict(t1, at) by {
        assert !Below(at, at);
      }
      MarkStepValid(t1, at, keys[n - 1]);
    }
  }

  /** One path item keeps the tree a nested dict. */
  lemma InsertPathValid(t: Tree, path: string, methods: Json)
    requires Valid(t) && InsertPath(t, path, methods).Ok?
    ensures Valid(InsertPath(t, path, methods).value)
  {
    var segs := Segments(path);
    DescendValid(t, segs);
    var keys := MethodKeys(methods).value;
    if |keys| > 0 {
      CursorIsDict(t, segs);
      MarkAllValid(Descend(t, segs).value.0, segs, keys);
    }
  }

  /**
   * One path item: every key outside the path's own node keeps what it had, so existing
   * nodes are reused and never replaced.
   */
  lemma InsertPathKeeps(t: Tree, path: string, methods: Json)
    requires InsertPath(t, path, methods).Ok?
    ensures forall x :: Lookup(t, x).Some? && !Below(x, Segments(path)) ==> Lookup(InsertPath(t, path, methods).value, x) == Lookup(t, x)
  {
    var segs := Segments(path);
    DescendLookups(t, segs);
    var keys := MethodKeys(methods).value;
    if |keys| > 0 {
      MarkAllLookups(Descend(t, segs).value.0, segs, keys);
    }
  }

  /**
   * One path item with keys: the path's segments are nested dicts, and each key is a leaf
   * `[KEY]` at the path's node (every key, not only the HTTP verbs).
   */
  lemma InsertPathLeaves(t: Tree, path: string, methods: Json)
    requires InsertPath(t, path, methods).Ok? && MethodKeys(methods).Some? && |MethodKeys(methods).value| > 0
    ensures AllBranches(InsertPath(t, path, methods).value, Segments(path))
    ensures forall k :: 0 <= k < |MethodKeys(methods).value| ==>
              Lookup(InsertPath(t, path, methods).value, Segments(path) + [LeafKey(MethodKeys(methods).value[k])]) == Some(Leaf)
  {
    var segs := Segments(path);
    DescendLookups(t, segs);
    var t1 := Descend(t, segs).value.0;
    var keys := MethodKeys(methods).value;
    MarkAllLookups(t1, segs, keys);
    var t2 := MarkAll(t1, segs, keys);
    forall j | 1 <= j <= |segs| ensures Lookup(t2, segs[..j]) == Some(Branch) {
      assert !Below(segs[..j], segs);
    }
  }

  lemma SegmentsOfSlash()
    ensures Segments("/") == []
  {
    LeadingSlash("");
    SegmentsOfEmpty();
    assert "/" + "" == "/";
  }

  /** A path of `/` has no segments, so its keys become leaves of the root dict. */
  lemma RootPath(t: Tree, methods: Json)
    requires MethodKeys(methods).Some? && |MethodKeys(methods).value| > 0
    ensures InsertPath(t, "/", methods).Ok?
    ensures forall k :: 0 <= k < |MethodKeys(methods).value| ==>
              Lookup(InsertPath(t, "/", methods).value, [LeafKey(MethodKeys(methods).value[k])]) == Some(Leaf)
  {
    SegmentsOfSlash();
    NoSegmentsLeaves(t, "/", methods);
  }

  lemma NoSegmentsLeaves(t: Tree, path: string, methods: Json)
    requires MethodKeys(methods).Some? && |MethodKeys(methods).value| > 0 && Segments(path) == []
    ensures InsertPath(t, path, methods).Ok?
    ensures forall k :: 0 <= k < |MethodKeys(methods).value| ==>
              Lookup(InsertPath(t, path, methods).value, [LeafKey(MethodKeys(methods).value[k])]) == Some(Leaf)
  {
    assert Descend(t, Segments(path)) == Ok((t, Some([])));
    var keys := MethodKeys(methods).value;
    assert InsertPath(t, path, methods) == Ok(MarkAll(t, [], keys));
    InsertPathLeaves(t, path, methods);
    var t2 := InsertPath(t, path, methods).value;
    forall k | 0 <= k < |keys| ensures Lookup(t2, [LeafKey(keys[k])]) == Some(Leaf) {
      assert Segments(path) + [LeafKey(keys[k])] == [LeafKey(keys[k])];
    }
  }

  lemma {:induction false} BuildTreeValid(t: Tree, items: seq<(string, Json)>)
    requires Valid(t)
    ensures BuildTree(t, items).Ok? ==> Valid(BuildTree(t, items).value)
  {
    if |items| > 0 {
      BuildTreeValid(t, items[..|items| - 1]);
      if BuildTree(t, items[..|items| - 1]).Ok? && BuildTree(t, items).Ok? {
        InsertPathValid(BuildTree(t, items[..|items| - 1]).value, items[|items| - 1].0, items[|items| - 1].1);
      }
    }
  }

  /** Whatever the document, a built tree is a nested dict with one node per key path. */
  lemma ApiTreeValid(spec: Json)
    requires spec.JObj?
    ensures ApiTree(spec).Ok? ==> Valid(ApiTree(spec).value)
  {
    var paths := GetOr(spec.fields, "paths", JObj([]));
    if paths.JObj? {
      BuildTreeValid([], paths.fields);
    }
  }

  // ---------------------------------------------------------------- the loops of generate_api_tree

  lemma {:induction false} DescendStop(t: Tree, segs: seq<string>, k: nat)
    requires k <= |segs| && Descend(t, segs[..k]).Err?
    ensures Descend(t, segs) == Descend(t, segs[..k])
    decreases |segs| - k
  {
    if k < |segs| {
      assert segs[..k + 1][..k] == segs[..k];
      DescendStop(t, segs, k + 1);
    } else {
      assert segs[..k] == segs;
    }
  }

  lemma {:induction false} BuildTreeStop(t: Tree, items: seq<(string, Json)>, k: nat)
    requires k <= |items| && BuildTree(t, items[..k]).Err?
    ensures BuildTree(t, items) == BuildTree(t, items[..k])
    decreases |items| - k
  {
    if k < |items| {
      assert items[..k + 1][..k] == items[..k];
      BuildTreeStop(t, items, k + 1);
    } else {
      assert items[..k] == items;
    }
  }

  /** The walk down `current_level`, one segment per iteration. */
  method WalkSegments(tree: Tree, segs: seq<string>) returns (r: Result<(Tree, Option<seq<string>>), TreeError>)
    ensures r == Descend(tree, segs)
  {
    var t, cursor := tree, Some([]);
    var i := 0;
    while i < |segs|
      invariant i <= |segs|
      invariant Descend(tree, segs[..i]) == Ok((t, cursor))
    {
      assert segs[..i + 1][..i] == segs[..i];
      if cursor.None? {
        DescendStop(tree, segs, i + 1);
        return Err(Raised);
      }
      var key := cursor.value + [segs[i]];
      var found := Find(t, key);
      if found.None? {
        t, cursor := t + [(key, Branch)], Some(key);
      } else if t[found.value].1 == Branch {
        cursor := Some(key);
      } else {
        cursor := None;
      }
      i := i + 1;
    }
    assert segs[..i] == segs;
    return Ok((t, cursor));
  }

  /** The loop that marks every key of a path item as a leaf. */
  method MarkLeaves(tree: Tree, at: seq<string>, keys: seq<string>) returns (t: Tree)
    ensures t == MarkAll(tree, at, keys)
  {
    t := tree;
    var i := 0;
    while i < |keys|
      invariant i <= |keys|
      invariant t == MarkAll(tree, at, keys[..i])
    {
      assert keys[..i + 1][..i] == keys[..i];
      var key := at + [LeafKey(keys[i])];
      var found := Find(t, key);
      if found.None? {
        t := t + [(key, Leaf)];
      } else {
        t := Prune(t[found.value := (key, Leaf)], key);
      }
      i := i + 1;
    }
    assert keys[..i] == keys;
  }

  method AddPath(tree: Tree, path: string, methods: Json) returns (r: Result<Tree, TreeError>)
    ensures r == InsertPath(tree, path, methods)
  {
    var walked := WalkSegments(tree, Segments(path));
    if walked.Err? {
      return Err(walked.error);
    }
    var (t1, cursor) := walked.value;
    var keys := MethodKeys(methods);
    if keys.None? {
      return Err(Raised);
    }
    if |keys.value| == 0 {
      return Ok(t1);
    }
    if cursor.None? {
      return Err(Raised);
    }
    var t2 := MarkLeaves(t1, cursor.value, keys.value);
    return Ok(t2);
  }

  /** generate_api_tree. */
  method GenerateApiTree(spec: Json) returns (r: Result<Tree, TreeError>)
    requires spec.JObj?
    ensures r == ApiTree(spec)
  {
    var paths := GetOr(spec.fields, "paths", JObj([]));
    if !paths.JObj? {
      return Err(Raised);
    }
    var items := paths.fields;
    var tree: Tree := [];
    var i := 0;
    while i < |items|
      invariant i <= |items|
      invariant BuildTree([], items[..i]) == Ok(tree)
    {
      assert items[..i + 1][..i] == items[..i];
      var next := AddPath(tree, items[i].0, items[i].1);
      if next.Err? {
        BuildTreeStop([], items, i + 1);
        return next;
      }
      tree := next.value;
      i := i + 1;
    }
    assert items[..i] == items;
    return Ok(tree);
  }
}
