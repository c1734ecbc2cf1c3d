/** The `yaml-paths` command of `yamlpath/commands/yaml_paths.py`: the
    recursive document search `search_for_paths`, the argument check and
    the per-file loop of `main` that prints one line per result. */
module YamlPaths {
  import opened Wrappers
  import Text
  import opened PathTypes
  import opened Nodes
  import opened Func

  // ---------------------------------------------------------------------
  // search_for_paths
  // ---------------------------------------------------------------------

  /** The keyword flags of `search_for_paths`. */
  datatype SearchFlags = SearchFlags(searchValues: bool, searchKeys: bool, includeAliases: bool)

  /** The flags when the caller passes none: values only, no aliases. */
  const DefaultFlags := SearchFlags(true, false, false)

  /** The path of a sequence so far: a leading separator for the root in
      slash mode, then the opening bracket. */
  function SeqPrefix(build: string, sep: PathSep): string
  {
    (if build == "" && sep == ForwardSlash then [SepChar(sep)] else build) + "["
  }

  /** The path of a mapping so far: the parent, then the separator when
      there is a parent; a lone leading separator for the root in slash mode. */
  function MapPrefix(build: string, sep: PathSep): string
  {
    if build != "" then build + [SepChar(sep)]
    else if sep == ForwardSlash then [SepChar(sep)]
    else ""
  }

  /** `[&name]` for an element with an anchor (the name escaped for the
      separator only), `[idx]` for any other element. */
  function ElementPath(prefix: string, ele: Node, idx: nat, sep: PathSep): string
  {
    match ele.anchor
    case Some(name) => prefix + "&" + Escaped(name, [SepChar(sep)]) + "]"
    case None => prefix + Text.DecimalString(idx) + "]"
  }

  /** A key appended to the map's path, escaped for the backslash first
      and then for the separator. */
  function KeyPath(prefix: string, key: Scalar, sep: PathSep): string
  {
    prefix + Escaped(Escaped(Str(key), ['\\']), [SepChar(sep)])
  }

  /** The entries a mapping is searched through: `non_merged_items()`, or
      `items()` when aliases are included. */
  function Pool(data: Node, f: SearchFlags): seq<Entry>
    requires data.MapNode?
  {
    if f.includeAliases then data.own + data.merged else data.own
  }

  /** The path strings `search_for_paths(data, terms, sep, build, **flags)`
      yields, in the order it yields them. */
  function Paths(data: Node, t: SearchTerms, sep: PathSep, build: string, f: SearchFlags): seq<string>
    decreases data, 2
  {
    match data
    case SeqNode(_, _) => SeqPaths(data, t, sep, SeqPrefix(build, sep), f, 0, [])
    case MapNode(_, _, _) => MapPaths(data, t, sep, MapPrefix(build, sep), f, 0, [])
    case ScalarNode(_, _) => []
  }

  /** The results of the elements from index `i` on, with `seen` the anchor
      names this call has recorded so far. */
  function SeqPaths(data: Node, t: SearchTerms, sep: PathSep, prefix: string, f: SearchFlags,
                    i: nat, seen: seq<string>): seq<string>
    requires data.SeqNode?
    decreases data, 1, |data.elems| - i
  {
    if i >= |data.elems| then []
    else
      var ele := data.elems[i];
      if ele.anchor.Some? && ele.anchor.value in seen && !f.includeAliases then
        SeqPaths(data, t, sep, prefix, f, i + 1, seen)
      else
        var seen' := if ele.anchor.Some? && ele.anchor.value !in seen then seen + [ele.anchor.value] else seen;
        ElementResults(ele, t, sep, ElementPath(prefix, ele, i, sep), f)
          + SeqPaths(data, t, sep, prefix, f, i + 1, seen')
  }

  /** What one element that is not screened out contributes: the results
      inside a container, or the element's own path when it is a tested
      scalar that is a hit. */
  function ElementResults(ele: Node, t: SearchTerms, sep: PathSep, path: string, f: SearchFlags): seq<string>
    decreases ele, 3
  {
    if IsContainer(ele) then Paths(ele, t, sep, path, f)
    else if f.searchValues && Hit(t, ele.value) then [path]
    else []
  }

  /** A tested scalar element is reported exactly when `matches XOR
      inverted`: of a search and its inversion, exactly one reports it. */
  lemma InvertedSearchComplements(ele: Node, t: SearchTerms, sep: PathSep, path: string, f: SearchFlags)
    requires !IsContainer(ele) && f.searchValues
    ensures var inv := SearchTerms(!t.inverted, t.searchMethod, t.term);
            |ElementResults(ele, t, sep, path, f)| + |ElementResults(ele, inv, sep, path, f)| == 1
    ensures (ElementResults(ele, t, sep, path, f) == [path])
            == (SearchMatches(t.searchMethod, t.term, ele.value) == Ok(!t.inverted))
  {
  }

  /** The entry of the pool at index `i`. */
  function PoolEntry(data: Node, f: SearchFlags, i: nat): (e: Entry)
    requires data.MapNode? && i < |Pool(data, f)|
    ensures e == Pool(data, f)[i]
    ensures e.value < data
  {
    if i < |data.own| then data.own[i] else data.merged[i - |data.own|]
  }

  /** Whether the key of the entry is tested and is a hit. */
  predicate KeyMatched(e: Entry, t: SearchTerms, f: SearchFlags)
  {
    f.searchKeys && Hit(t, e.key)
  }

  /** Whether the value of the entry is a scalar that is tested (the key did
      not match) and so passes through the alias screen. */
  predicate ValueTested(e: Entry, t: SearchTerms, f: SearchFlags)
  {
    !IsContainer(e.value) && f.searchValues && !KeyMatched(e, t, f)
  }

  /** The results of the pool entries from index `i` on. */
  function MapPaths(data: Node, t: SearchTerms, sep: PathSep, prefix: string, f: SearchFlags,
                    i: nat, seen: seq<string>): seq<string>
    requires data.MapNode?
    decreases data, 1, |Pool(data, f)| - i
  {
    if i >= |Pool(data, f)| then []
    else
      var e := PoolEntry(data, f, i);
      var path := KeyPath(prefix, e.key, sep);
      var keyPart := if KeyMatched(e, t, f) then [path] else [];
      if IsContainer(e.value) then
        keyPart + Paths(e.value, t, sep, path, f) + MapPaths(data, t, sep, prefix, f, i + 1, seen)
      else if ValueTested(e, t, f) then
        var a := e.value.anchor;
        if a.Some? && a.value in seen && !f.includeAliases then
          MapPaths(data, t, sep, prefix, f, i + 1, seen)
        else
          var seen' := if a.Some? && a.value !in seen then seen + [a.value] else seen;
          (if Hit(t, e.value.value) then [path] else []) + MapPaths(data, t, sep, prefix, f, i + 1, seen')
      else
        keyPart + MapPaths(data, t, sep, prefix, f, i + 1, seen)
  }

  lemma ConcatAssoc(a: seq<string>, b: seq<string>, c: seq<string>)
    ensures a + b + c == a + (b + c)
  {
  }

  /** `search_for_paths(data, terms, pathsep, build_path, **flags)`, the
      generator's output collected into a list. */
  method SearchForPaths(data: Node, t: SearchTerms, sep: PathSep, build: string, f: SearchFlags)
    returns (results: seq<string>)
    ensures results == Paths(data, t, sep, build, f)
    decreases data, 2
  {
    results := [];
    match data {
      case SeqNode(_, _) =>
        var buildPath := build;
        if buildPath == "" && sep == ForwardSlash {
          buildPath := [SepChar(sep)];
        }
        buildPath := buildPath + "[";
        results := SearchSeq(data, t, sep, buildPath, f);
      case MapNode(_, _, _) =>
        var buildPath := build;
        if buildPath != "" {
          buildPath := buildPath + [SepChar(sep)];
        } else if sep == ForwardSlash {
          buildPath := [SepChar(sep)];
        }
        results := SearchMap(data, t, sep, buildPath, f);
      case ScalarNode(_, _) =>
    }
  }

  /** `search_matches` on one candidate, then the test
      `(matches and not inverted) or (inverted and not matches)`. */
  method TestCandidate(t: SearchTerms, candidate: Scalar) returns (hit: bool)
    ensures hit == Hit(t, candidate)
  {
    var matches := SearchMatches(t.searchMethod, t.term, candidate).value;
    hit := (matches && !t.inverted) || (t.inverted && !matches);
  }

  /** The sequence branch of `search_for_paths`, after the path is built. */
  method SearchSeq(data: Node, t: SearchTerms, sep: PathSep, buildPath: string, f: SearchFlags)
    returns (results: seq<string>)
    requires data.SeqNode?
    ensures results == SeqPaths(data, t, sep, buildPath, f, 0, [])
    decreases data, 1
  {
    results := [];
    var seen: seq<string> := [];
    var idx := 0;
    while idx < |data.elems|
      invariant 0 <= idx <= |data.elems|
      invariant results + SeqPaths(data, t, sep, buildPath, f, idx, seen)
                == SeqPaths(data, t, sep, buildPath, f, 0, [])
    {
      var found, seen' := SearchElement(data, t, sep, buildPath, f, idx, seen);
      ConcatAssoc(results, found, SeqPaths(data, t, sep, buildPath, f, idx + 1, seen'));
      results, seen, idx := results + found, seen', idx + 1;
    }
  }

  /** One turn of the element loop: the results element `idx` yields and
      the seen list after it. */
  method SearchElement(data: Node, t: SearchTerms, sep: PathSep, buildPath: string, f: SearchFlags,
                       idx: nat, seen: seq<string>)
    returns (found: seq<string>, seen': seq<string>)
    requires data.SeqNode? && idx < |data.elems|
    ensures found + SeqPaths(data, t, sep, buildPath, f, idx + 1, seen')
            == SeqPaths(data, t, sep, buildPath, f, idx, seen)
    decreases data, 0
  {
    var ele := data.elems[idx];
    found, seen' := [], seen;
    var tmpPath: string;
    if ele.anchor.Some? {
      var anchorName := ele.anchor.value;
      if anchorName in seen {
        if !f.includeAliases {
          // Ignore duplicate aliases
          return;
        }
      } else {
        seen' := seen + [anchorName];
      }
      var escapedName := EnsureEscaped(anchorName, [SepChar(sep)]);
      tmpPath := buildPath + "&" + escapedName + "]";
    } else {
      tmpPath := buildPath + Text.DecimalString(idx) + "]";
    }
    assert tmpPath == ElementPath(buildPath, ele, idx, sep);
    if IsContainer(ele) {
      found := SearchForPaths(ele, t, sep, tmpPath, f);
    } else if f.searchValues {
      var hit := TestCandidate(t, ele.value);
      if hit {
        found := [tmpPath];
      }
    }
  }

  /** The mapping branch of `search_for_paths`, after the path is built. */
  method SearchMap(data: Node, t: SearchTerms, sep: PathSep, buildPath: string, f: SearchFlags)
    returns (results: seq<string>)
    requires data.MapNode?
    ensures results == MapPaths(data, t, sep, buildPath, f, 0, [])
    decreases data, 1
  {
    results := [];
    var seen: seq<string> := [];
    var pool := data.own;
    if f.includeAliases {
      pool := data.own + data.merged;
    }
    assert pool == Pool(data, f);
    var idx := 0;
    while idx < |pool|
      invariant pool == Pool(data, f)
      invariant 0 <= idx <= |pool|
      invariant results + MapPaths(data, t, sep, buildPath, f, idx, seen)
                == MapPaths(data, t, sep, buildPath, f, 0, [])
    {
      var found, seen' := SearchEntry(data, t, sep, buildPath, f, idx, seen);
      ConcatAssoc(results, found, MapPaths(data, t, sep, buildPath, f, idx + 1, seen'));
      results, seen, idx := results + found, seen', idx + 1;
    }
  }

  /** One turn of the entry loop: the results entry `idx` of the pool
      yields, key first, and the seen list after it. */
  method SearchEntry(data: Node, t: SearchTerms, sep: PathSep, buildPath: string, f: SearchFlags,
                     idx: nat, seen: seq<string>)
    returns (found: seq<string>, seen': seq<string>)
    requires data.MapNode? && idx < |Pool(data, f)|
    ensures found + MapPaths(data, t, sep, buildPath, f, idx + 1, seen')
            == MapPaths(data, t, sep, buildPath, f, idx, seen)
    decreases data, 0
  {
    var key := PoolEntry(data, f, idx).key;
    var val := PoolEntry(data, f, idx).value;
    var keyEscaped := EnsureEscaped(Str(key), ['\\']);
    keyEscaped := EnsureEscaped(keyEscaped, [SepChar(sep)]);
    var tmpPath := buildPath + keyEscaped;
    assert tmpPath == KeyPath(buildPath, key, sep);
    var keyMatched := false;
    found, seen' := [], seen;
    if f.searchKeys {
      var hit := TestCandidate(t, key);
      if hit {
        keyMatched := true;
        found := [tmpPath];
      }
    }
    assert keyMatched == KeyMatched(PoolEntry(data, f, idx), t, f);
    if IsContainer(val) {
      var sub := SearchForPaths(val, t, sep, tmpPath, f);
      MapEntryContainer(data, t, sep, buildPath, f, idx, seen);
      ConcatAssoc(found, sub, MapPaths(data, t, sep, buildPath, f, idx + 1, seen));
      found := found + sub;
    } else if f.searchValues && !keyMatched {
      found, seen' := SearchScalarValue(data, t, sep, buildPath, f, idx, seen, tmpPath);
    } else {
      MapEntryUntested(data, t, sep, buildPath, f, idx, seen);
    }
  }

  /** The value branch of the entry loop for a tested scalar: the alias
      screen, the anchor recorded, then the match. */
  method SearchScalarValue(data: Node, t: SearchTerms, sep: PathSep, buildPath: string, f: SearchFlags,
                           idx: nat, seen: seq<string>, tmpPath: string)
    returns (found: seq<string>, seen': seq<string>)
    requires data.MapNode? && idx < |Pool(data, f)|
    requires ValueTested(PoolEntry(data, f, idx), t, f)
    requires tmpPath == KeyPath(buildPath, PoolEntry(data, f, idx).key, sep)
    ensures found + MapPaths(data, t, sep, buildPath, f, idx + 1, seen')
            == MapPaths(data, t, sep, buildPath, f, idx, seen)
  {
    var val := PoolEntry(data, f, idx).value;
    found, seen' := [], seen;
    if val.anchor.Some? {
      var anchorName := val.anchor.value;
      if anchorName in seen {
        if !f.includeAliases {
          // Ignore duplicate aliases
          MapEntryScreened(data, t, sep, buildPath, f, idx, seen);
          return;
        }
      } else {
        seen' := seen + [anchorName];
      }
    }
    var hit := TestCandidate(t, val.value);
    if hit {
      found := found + [tmpPath];
    }
    MapEntryRecorded(data, t, sep, buildPath, f, idx, seen, seen');
  }

  /** A tested scalar value whose anchor was seen before is skipped unless
      aliases are included. */
  lemma MapEntryScreened(data: Node, t: SearchTerms, sep: PathSep, prefix: string, f: SearchFlags,
                         i: nat, seen: seq<string>)
    requires data.MapNode? && i < |Pool(data, f)| && ValueTested(PoolEntry(data, f, i), t, f)
    requires var a := PoolEntry(data, f, i).value.anchor;
             a.Some? && a.value in seen && !f.includeAliases
    ensures MapPaths(data, t, sep, prefix, f, i, seen) == MapPaths(data, t, sep, prefix, f, i + 1, seen)
  {
  }

  /** Any other tested scalar value records its anchor and is reported when
      it is a hit. */
  lemma MapEntryRecorded(data: Node, t: SearchTerms, sep: PathSep, prefix: string, f: SearchFlags,
                         i: nat, seen: seq<string>, seen': seq<string>)
    requires data.MapNode? && i < |Pool(data, f)| && ValueTested(PoolEntry(data, f, i), t, f)
    requires var a := PoolEntry(data, f, i).value.anchor;
             && !(a.Some? && a.value in seen && !f.includeAliases)
             && seen' == if a.Some? && a.value !in seen then seen + [a.value] else seen
    ensures var e := PoolEntry(data, f, i);
            MapPaths(data, t, sep, prefix, f, i, seen)
            == (if Hit(t, e.value.value) then [KeyPath(prefix, e.key, sep)] else [])
               + MapPaths(data, t, sep, prefix, f, i + 1, seen')
  {
  }

  /** Entry `i` with a container value: the key's result, then the
      container's. */
  lemma MapEntryContainer(data: Node, t: SearchTerms, sep: PathSep, prefix: string, f: SearchFlags,
                          i: nat, seen: seq<string>)
    requires data.MapNode? && i < |Pool(data, f)| && IsContainer(PoolEntry(data, f, i).value)
    ensures var e := PoolEntry(data, f, i);
            var path := KeyPath(prefix, e.key, sep);
            MapPaths(data, t, sep, prefix, f, i, seen)
            == (if KeyMatched(e, t, f) then [path] else []) + Paths(e.value, t, sep, path, f)
               + MapPaths(data, t, sep, prefix, f, i + 1, seen)
  {
  }

  /** Entry `i` with a scalar value that is not tested: only the key's
      result. */
  lemma MapEntryUntested(data: Node, t: SearchTerms, sep: PathSep, prefix: string, f: SearchFlags,
                         i: nat, seen: seq<string>)
    requires data.MapNode? && i < |Pool(data, f)|
    requires !IsContainer(PoolEntry(data, f, i).value) && !ValueTested(PoolEntry(data, f, i), t, f)
    ensures var e := PoolEntry(data, f, i);
            MapPaths(data, t, sep, prefix, f, i, seen)
            == (if KeyMatched(e, t, f) then [KeyPath(prefix, e.key, sep)] else [])
               + MapPaths(data, t, sep, prefix, f, i + 1, seen)
  {
  }

  // ---------------------------------------------------------------------
  // Properties of search_for_paths
  // ---------------------------------------------------------------------

  /** Some element before index `i` carries the anchor `name`. */
  predicate AnchorBefore(elems: seq<Node>, i: nat, name: string)
  {
    exists j :: 0 <= j < i && j < |elems| && elems[j].anchor == Some(name)
  }

  /** A reference reading of the sequence branch without the threaded list:
      an element whose anchor an earlier element of the same sequence
      carries is skipped, unless aliases are included. */
  function SeqReference(data: Node, t: SearchTerms, sep: PathSep, prefix: string, f: SearchFlags, i: nat): seq<string>
    requires data.SeqNode?
    decreases |data.elems| - i
  {
    if i >= |data.elems| then []
    else
      var ele := data.elems[i];
      (if ele.anchor.Some? && AnchorBefore(data.elems, i, ele.anchor.value) && !f.includeAliases then []
       else ElementResults(ele, t, sep, ElementPath(prefix, ele, i, sep), f))
      + SeqReference(data, t, sep, prefix, f, i + 1)
  }

  /** The list the sequence branch has threaded by the time it reaches
      element `i`: each anchor name once, in the order first met. */
  function AnchorsBefore(elems: seq<Node>, i: nat): seq<string>
    requires i <= |elems|
    decreases i
  {
    if i == 0 then []
    else
      var prev := AnchorsBefore(elems, i - 1);
      var a := elems[i - 1].anchor;
      if a.Some? && a.value !in prev then prev + [a.value] else prev
  }

  /** `seen` holds exactly the anchor names of the elements before `i`. */
  ghost predicate AnchorsSeen(elems: seq<Node>, i: nat, seen: seq<string>)
  {
    forall name :: name in seen <==> AnchorBefore(elems, i, name)
  }

  /** The list `search_for_paths` keeps for a sequence holds exactly the
      anchor names of the elements already visited. */
  lemma {:induction false} AnchorsBeforeSeen(elems: seq<Node>, i: nat)
    requires i <= |elems|
    ensures AnchorsSeen(elems, i, AnchorsBefore(elems, i))
    decreases i
  {
    if i > 0 {
      AnchorsBeforeSeen(elems, i - 1);
      AnchorsSeenStep(elems, i - 1, AnchorsBefore(elems, i - 1));
    }
  }

  lemma AnchorsSeenStep(elems: seq<Node>, i: nat, seen: seq<string>)
    requires i < |elems| && AnchorsSeen(elems, i, seen)
    ensures var a := elems[i].anchor;
            AnchorsSeen(elems, i + 1, if a.Some? && a.value !in seen then seen + [a.value] else seen)
  {
    var a := elems[i].anchor;
    var seen' := if a.Some? && a.value !in seen then seen + [a.value] else seen;
    forall name ensures name in seen' <==> AnchorBefore(elems, i + 1, name) {
      if AnchorBefore(elems, i + 1, name) {
        var j :| 0 <= j < i + 1 && j < |elems| && elems[j].anchor == Some(name);
        if j < i {
          assert AnchorBefore(elems, i, name);
        }
      }
      if name in seen {
        var j :| 0 <= j < i && j < |elems| && elems[j].anchor == Some(name);
        assert AnchorBefore(elems, i + 1, name);
      }
    }
  }

  /** With that list the sequence branch screens as the reference does. */
  lemma {:induction false} SeqPathsIsReference(data: Node, t: SearchTerms, sep: PathSep, prefix: string,
                                               f: SearchFlags, i: nat)
    requires data.SeqNode? && i <= |data.elems|
    ensures SeqPaths(data, t, sep, prefix, f, i, AnchorsBefore(data.elems, i))
            == SeqReference(data, t, sep, prefix, f, i)
    decreases |data.elems| - i
  {
    if i < |data.elems| {
      SeqPathsIsReference(data, t, sep, prefix, f, i + 1);
      SeqIsReferenceStep(data, t, sep, prefix, f, i);
    } else {
      SeqIsReferenceEnd(data, t, sep, prefix, f, i);
    }
  }

  /** The induction step: if the search and the reference agree after
      element `i`, they agree from `i` on. */
  lemma SeqIsReferenceStep(data: Node, t: SearchTerms, sep: PathSep, prefix: string, f: SearchFlags, i: nat)
    requires data.SeqNode? && i < |data.elems|
    ensures SeqPaths(data, t, sep, prefix, f, i + 1, AnchorsBefore(data.elems, i + 1))
              == SeqReference(data, t, sep, prefix, f, i + 1)
            ==> SeqPaths(data, t, sep, prefix, f, i, AnchorsBefore(data.elems, i))
                  == SeqReference(data, t, sep, prefix, f, i)
  {
    var seen := AnchorsBefore(data.elems, i);
    AnchorsBeforeSeen(data.elems, i);
    var a := data.elems[i].anchor;
    if a.Some? {
      assert a.value in seen <==> AnchorBefore(data.elems, i, a.value);
    }
    assert AnchorsBefore(data.elems, i + 1) == if a.Some? && a.value !in seen then seen + [a.value] else seen;
  }

  /** Past the last element both readings are empty. */
  lemma SeqIsReferenceEnd(data: Node, t: SearchTerms, sep: PathSep, prefix: string, f: SearchFlags, i: nat)
    requires data.SeqNode? && i == |data.elems|
    ensures SeqPaths(data, t, sep, prefix, f, i, AnchorsBefore(data.elems, i)) == []
    ensures SeqReference(data, t, sep, prefix, f, i) == []
  {
  }

  /** Within one sequence a repeated anchor is skipped entirely, before any
      recursion, unless aliases are included; the list starts empty in
      every call. */
  lemma SequenceScreensRepeatedAnchors(data: Node, t: SearchTerms, sep: PathSep, build: string, f: SearchFlags)
    requires data.SeqNode?
    ensures Paths(data, t, sep, build, f) == SeqReference(data, t, sep, SeqPrefix(build, sep), f, 0)
  {
    SeqPathsIsReference(data, t, sep, SeqPrefix(build, sep), f, 0);
  }

  /** An entry before index `i` whose scalar value was tested carried the
      anchor `name`. */
  predicate ValueAnchorBefore(data: Node, t: SearchTerms, f: SearchFlags, i: nat, name: string)
    requires data.MapNode?
  {
    exists j :: 0 <= j < i && j < |Pool(data, f)| && ValueTested(PoolEntry(data, f, j), t, f)
                && PoolEntry(data, f, j).value.anchor == Some(name)
  }

  /** The threaded list before entry `i` holds exactly the anchors of the
      values tested before it. */
  ghost predicate SeenBefore(data: Node, t: SearchTerms, f: SearchFlags, i: nat, seen: seq<string>)
    requires data.MapNode?
  {
    forall name :: name in seen <==> ValueAnchorBefore(data, t, f, i, name)
  }

  /** A reference reading of the mapping branch without the threaded list:
      only a scalar value that is tested is screened, against the anchors
      of the values tested before it in the same mapping. */
  function MapReference(data: Node, t: SearchTerms, sep: PathSep, prefix: string, f: SearchFlags, i: nat): seq<string>
    requires data.MapNode?
    decreases |Pool(data, f)| - i
  {
    if i >= |Pool(data, f)| then []
    else
      var e := PoolEntry(data, f, i);
      var path := KeyPath(prefix, e.key, sep);
      var keyPart := if KeyMatched(e, t, f) then [path] else [];
      if IsContainer(e.value) then
        keyPart + Paths(e.value, t, sep, path, f) + MapReference(data, t, sep, prefix, f, i + 1)
      else if ValueTested(e, t, f) then
        var a := e.value.anchor;
        (if a.Some? && ValueAnchorBefore(data, t, f, i, a.value) && !f.includeAliases then []
         else if Hit(t, e.value.value) then [path] else [])
        + MapReference(data, t, sep, prefix, f, i + 1)
      else
        keyPart + MapReference(data, t, sep, prefix, f, i + 1)
  }

  /** The list the mapping branch has threaded by the time it reaches
      entry `i`. */
  function SeenList(data: Node, t: SearchTerms, f: SearchFlags, i: nat): seq<string>
    requires data.MapNode? && i <= |Pool(data, f)|
    decreases i
  {
    if i == 0 then []
    else
      var prev := SeenList(data, t, f, i - 1);
      var e := PoolEntry(data, f, i - 1);
      var a := e.value.anchor;
      if ValueTested(e, t, f) && a.Some? && a.value !in prev then prev + [a.value] else prev
  }

  /** The threaded list holds exactly the anchors of the values tested
      before entry `i`. */
  lemma {:induction false} SeenListBefore(data: Node, t: SearchTerms, f: SearchFlags, i: nat)
    requires data.MapNode? && i <= |Pool(data, f)|
    ensures SeenBefore(data, t, f, i, SeenList(data, t, f, i))
    decreases i
  {
    if i > 0 {
      SeenListBefore(data, t, f, i - 1);
      SeenListStep(data, t, f, i - 1);
    }
  }

  lemma SeenListStep(data: Node, t: SearchTerms, f: SearchFlags, i: nat)
    requires data.MapNode? && i < |Pool(data, f)|
    requires SeenBefore(data, t, f, i, SeenList(data, t, f, i))
    ensures SeenBefore(data, t, f, i + 1, SeenList(data, t, f, i + 1))
  {
    var seen' := MapSeenStep(data, t, f, i, SeenList(data, t, f, i));
  }

  lemma {:induction false} MapPathsIsReference(data: Node, t: SearchTerms, sep: PathSep, prefix: string,
                                               f: SearchFlags, i: nat)
    requires data.MapNode? && i <= |Pool(data, f)|
    ensures MapPaths(data, t, sep, prefix, f, i, SeenList(data, t, f, i)) == MapReference(data, t, sep, prefix, f, i)
    decreases |Pool(data, f)| - i
  {
    if i < |Pool(data, f)| {
      MapPathsIsReference(data, t, sep, prefix, f, i + 1);
      MapIsReferenceStep(data, t, sep, prefix, f, i);
    } else {
      MapIsReferenceEnd(data, t, sep, prefix, f, i);
    }
  }

  /** Past the last entry both readings are empty. */
  lemma MapIsReferenceEnd(data: Node, t: SearchTerms, sep: PathSep, prefix: string, f: SearchFlags, i: nat)
    requires data.MapNode? && i == |Pool(data, f)|
    ensures MapPaths(data, t, sep, prefix, f, i, SeenList(data, t, f, i)) == []
    ensures MapReference(data, t, sep, prefix, f, i) == []
  {
  }

  /** The induction step: if the search and the reference agree after entry
      `i`, they agree from `i` on. */
  lemma MapIsReferenceStep(data: Node, t: SearchTerms, sep: PathSep, prefix: string, f: SearchFlags, i: nat)
    requires data.MapNode? && i < |Pool(data, f)|
    ensures MapPaths(data, t, sep, prefix, f, i + 1, SeenList(data, t, f, i + 1))
              == MapReference(data, t, sep, prefix, f, i + 1)
            ==> MapPaths(data, t, sep, prefix, f, i, SeenList(data, t, f, i))
                  == MapReference(data, t, sep, prefix, f, i)
  {
    SeenListBefore(data, t, f, i);
    var seen' := MapPathsStep(data, t, sep, prefix, f, i, SeenList(data, t, f, i));
    MapReferenceStep(data, t, sep, prefix, f, i);
  }

  /** What entry `i` contributes in the reference reading. */
  function MapEntryReference(data: Node, t: SearchTerms, sep: PathSep, prefix: string, f: SearchFlags, i: nat): seq<string>
    requires data.MapNode? && i < |Pool(data, f)|
  {
    var e := PoolEntry(data, f, i);
    var path := KeyPath(prefix, e.key, sep);
    var keyPart := if KeyMatched(e, t, f) then [path] else [];
    if IsContainer(e.value) then
      keyPart + Paths(e.value, t, sep, path, f)
    else if ValueTested(e, t, f) then
      var a := e.value.anchor;
      if a.Some? && ValueAnchorBefore(data, t, f, i, a.value) && !f.includeAliases then []
      else if Hit(t, e.value.value) then [path] else []
    else
      keyPart
  }

  lemma MapReferenceStep(data: Node, t: SearchTerms, sep: PathSep, prefix: string, f: SearchFlags, i: nat)
    requires data.MapNode? && i < |Pool(data, f)|
    ensures MapReference(data, t, sep, prefix, f, i)
            == MapEntryReference(data, t, sep, prefix, f, i) + MapReference(data, t, sep, prefix, f, i + 1)
  {
    var e := PoolEntry(data, f, i);
    var path := KeyPath(prefix, e.key, sep);
    var keyPart := if KeyMatched(e, t, f) then [path] else [];
    if IsContainer(e.value) {
      ConcatAssoc(keyPart, Paths(e.value, t, sep, path, f), MapReference(data, t, sep, prefix, f, i + 1));
    }
  }

  /** With the threaded list right before entry `i`, the search's results
      from `i` on are the entry's reference contribution and then the
      search's results after it. */
  lemma MapPathsStep(data: Node, t: SearchTerms, sep: PathSep, prefix: string, f: SearchFlags, i: nat,
                     seen: seq<string>) returns (seen': seq<string>)
    requires data.MapNode? && i < |Pool(data, f)|
    requires SeenBefore(data, t, f, i, seen)
    ensures MapPaths(data, t, sep, prefix, f, i, seen)
            == MapEntryReference(data, t, sep, prefix, f, i) + MapPaths(data, t, sep, prefix, f, i + 1, seen')
    ensures SeenBefore(data, t, f, i + 1, seen')
  {
    seen' := MapSeenStep(data, t, f, i, seen);
    var e := PoolEntry(data, f, i);
    var path := KeyPath(prefix, e.key, sep);
    var keyPart := if KeyMatched(e, t, f) then [path] else [];
    if IsContainer(e.value) {
      ConcatAssoc(keyPart, Paths(e.value, t, sep, path, f), MapPaths(data, t, sep, prefix, f, i + 1, seen));
    } else if ValueTested(e, t, f) {
      var a := e.value.anchor;
      if a.Some? {
        assert a.value in seen <==> ValueAnchorBefore(data, t, f, i, a.value);
      }
    }
  }

  /** After entry `i` the threaded list holds the anchors of the values
      tested up to and including it. */
  lemma MapSeenStep(data: Node, t: SearchTerms, f: SearchFlags, i: nat, seen: seq<string>) returns (seen': seq<string>)
    requires data.MapNode? && i < |Pool(data, f)|
    requires SeenBefore(data, t, f, i, seen)
    ensures var e := PoolEntry(data, f, i);
            var a := e.value.anchor;
            seen' == if ValueTested(e, t, f) && a.Some? && a.value !in seen then seen + [a.value] else seen
    ensures SeenBefore(data, t, f, i + 1, seen')
  {
    var e := PoolEntry(data, f, i);
    var a := e.value.anchor;
    seen' := if ValueTested(e, t, f) && a.Some? && a.value !in seen then seen + [a.value] else seen;
    forall name ensures name in seen' <==> ValueAnchorBefore(data, t, f, i + 1, name) {
      if ValueAnchorBefore(data, t, f, i + 1, name) {
        var j :| 0 <= j < i + 1 && j < |Pool(data, f)| && ValueTested(PoolEntry(data, f, j), t, f)
                 && PoolEntry(data, f, j).value.anchor == Some(name);
        if j < i {
          assert ValueAnchorBefore(data, t, f, i, name);
        }
      }
      if name in seen {
        var j :| 0 <= j < i && j < |Pool(data, f)| && ValueTested(PoolEntry(data, f, j), t, f)
                 && PoolEntry(data, f, j).value.anchor == Some(name);
        assert ValueAnchorBefore(data, t, f, i + 1, name);
      }
    }
  }

  /** In a mapping only a repeated anchor on a tested scalar value is
      screened; keys and container values are never screened. */
  lemma MappingScreensRepeatedValueAnchors(data: Node, t: SearchTerms, sep: PathSep, build: string, f: SearchFlags)
    requires data.MapNode?
    ensures Paths(data, t, sep, build, f) == MapReference(data, t, sep, MapPrefix(build, sep), f, 0)
  {
    MapPathsIsReference(data, t, sep, MapPrefix(build, sep), f, 0);
  }

  /** With neither values nor keys searched nothing is yielded, though
      every container is still walked. */
  lemma {:induction false} NothingSearchedNothingFound(data: Node, t: SearchTerms, sep: PathSep, build: string, f: SearchFlags)
    requires !f.searchValues && !f.searchKeys
    ensures Paths(data, t, sep, build, f) == []
    decreases data, 2
  {
    match data
    case SeqNode(_, _) => SeqNothingFound(data, t, sep, SeqPrefix(build, sep), f, 0, []);
    case MapNode(_, _, _) => MapNothingFound(data, t, sep, MapPrefix(build, sep), f, 0, []);
    case ScalarNode(_, _) =>
  }

  lemma {:induction false} SeqNothingFound(data: Node, t: SearchTerms, sep: PathSep, prefix: string,
                                           f: SearchFlags, i: nat, seen: seq<string>)
    requires data.SeqNode? && !f.searchValues && !f.searchKeys
    ensures SeqPaths(data, t, sep, prefix, f, i, seen) == []
    decreases data, 1, |data.elems| - i
  {
    if i < |data.elems| {
      var ele := data.elems[i];
      var seen' := if ele.anchor.Some? && ele.anchor.value !in seen then seen + [ele.anchor.value] else seen;
      if IsContainer(ele) {
        NothingSearchedNothingFound(ele, t, sep, ElementPath(prefix, ele, i, sep), f);
      }
      SeqNothingFound(data, t, sep, prefix, f, i + 1, seen);
      SeqNothingFound(data, t, sep, prefix, f, i + 1, seen');
    }
  }

  lemma {:induction false} MapNothingFound(data: Node, t: SearchTerms, sep: PathSep, prefix: string,
                                           f: SearchFlags, i: nat, seen: seq<string>)
    requires data.MapNode? && !f.searchValues && !f.searchKeys
    ensures MapPaths(data, t, sep, prefix, f, i, seen) == []
    decreases data, 1, |Pool(data, f)| - i
  {
    if i < |Pool(data, f)| {
      var e := PoolEntry(data, f, i);
      if IsContainer(e.value) {
        NothingSearchedNothingFound(e.value, t, sep, KeyPath(prefix, e.key, sep), f);
      }
      MapNothingFound(data, t, sep, prefix, f, i + 1, seen);
    }
  }

  /** Where the results of a call start: the path built so far, or a lone
      separator for the root in slash mode. */
  function Start(build: string, sep: PathSep): string
  {
    if build == "" && sep == ForwardSlash then [SepChar(sep)] else build
  }

  lemma PrefixTrans(a: string, b: string, c: string)
    requires Text.IsPrefix(a, b) && Text.IsPrefix(b, c)
    ensures Text.IsPrefix(a, c)
  {
    assert c[..|b|][..|a|] == c[..|a|];
  }

  lemma PrefixOfAppend(a: string, b: string)
    ensures Text.IsPrefix(a, a + b)
  {
    assert (a + b)[..|a|] == a;
  }

  /** Every path in `ps` starts with `prefix`. */
  predicate Extends(prefix: string, ps: seq<string>)
  {
    forall p :: p in ps ==> Text.IsPrefix(prefix, p)
  }

  lemma ExtendsConcat(prefix: string, a: seq<string>, b: seq<string>)
    requires Extends(prefix, a) && Extends(prefix, b)
    ensures Extends(prefix, a + b)
  {
  }

  /** Every yielded path extends the path the call was given; in slash
      mode every path of a search from the root starts with the separator. */
  lemma {:induction false} PathsExtendBuild(data: Node, t: SearchTerms, sep: PathSep, build: string, f: SearchFlags)
    ensures Extends(Start(build, sep), Paths(data, t, sep, build, f))
    decreases data, 2
  {
    match data
    case SeqNode(_, _) =>
      var prefix := SeqPrefix(build, sep);
      PrefixOfAppend(Start(build, sep), "[");
      SeqPathsExtend(data, t, sep, prefix, f, 0, []);
      forall p | p in Paths(data, t, sep, build, f) ensures Text.IsPrefix(Start(build, sep), p) {
        PrefixTrans(Start(build, sep), prefix, p);
      }
    case MapNode(_, _, _) =>
      var prefix := MapPrefix(build, sep);
      if build != "" {
        PrefixOfAppend(build, [SepChar(sep)]);
      }
      assert Text.IsPrefix(Start(build, sep), prefix);
      MapPathsExtend(data, t, sep, prefix, f, 0, []);
      forall p | p in Paths(data, t, sep, build, f) ensures Text.IsPrefix(Start(build, sep), p) {
        PrefixTrans(Start(build, sep), prefix, p);
      }
    case ScalarNode(_, _) =>
  }

  /** The paths found below a node at `path` all extend `prefix` when
      `path` does. */
  lemma {:induction false} BelowExtends(ele: Node, t: SearchTerms, sep: PathSep, prefix: string, path: string,
                                        f: SearchFlags)
    requires Text.IsPrefix(prefix, path)
    ensures Extends(prefix, Paths(ele, t, sep, path, f))
    decreases ele, 3
  {
    PathsExtendBuild(ele, t, sep, path, f);
    assert Text.IsPrefix(prefix, Start(path, sep));
    forall p | p in Paths(ele, t, sep, path, f) ensures Text.IsPrefix(prefix, p) {
      PrefixTrans(prefix, Start(path, sep), p);
    }
  }

  lemma {:induction false} SeqPathsExtend(data: Node, t: SearchTerms, sep: PathSep, prefix: string,
                                          f: SearchFlags, i: nat, seen: seq<string>)
    requires data.SeqNode?
    ensures Extends(prefix, SeqPaths(data, t, sep, prefix, f, i, seen))
    decreases data, 1, |data.elems| - i, 1
  {
    if i < |data.elems| {
      var ele := data.elems[i];
      var seen' := if ele.anchor.Some? && ele.anchor.value !in seen then seen + [ele.anchor.value] else seen;
      SeqPathsExtend(data, t, sep, prefix, f, i + 1, seen);
      SeqPathsExtend(data, t, sep, prefix, f, i + 1, seen');
      SeqExtendStep(data, t, sep, prefix, f, i, seen);
    }
  }

  /** The induction step of `SeqPathsExtend`. */
  lemma {:induction false} SeqExtendStep(data: Node, t: SearchTerms, sep: PathSep, prefix: string,
                                         f: SearchFlags, i: nat, seen: seq<string>)
    requires data.SeqNode? && i < |data.elems|
    requires var ele := data.elems[i];
             var seen' := if ele.anchor.Some? && ele.anchor.value !in seen then seen + [ele.anchor.value] else seen;
             Extends(prefix, SeqPaths(data, t, sep, prefix, f, i + 1, seen))
             && Extends(prefix, SeqPaths(data, t, sep, prefix, f, i + 1, seen'))
    ensures Extends(prefix, SeqPaths(data, t, sep, prefix, f, i, seen))
    decreases data, 1, |data.elems| - i, 0
  {
    var ele := data.elems[i];
    var seen' := if ele.anchor.Some? && ele.anchor.value !in seen then seen + [ele.anchor.value] else seen;
    var path := ElementPath(prefix, ele, i, sep);
    match ele.anchor {
      case Some(name) =>
        assert path == prefix + ("&" + Escaped(name, [SepChar(sep)]) + "]");
        PrefixOfAppend(prefix, "&" + Escaped(name, [SepChar(sep)]) + "]");
      case None =>
        assert path == prefix + (Text.DecimalString(i) + "]");
        PrefixOfAppend(prefix, Text.DecimalString(i) + "]");
    }
    if IsContainer(ele) {
      BelowExtends(ele, t, sep, prefix, path, f);
    }
    ExtendsConcat(prefix, ElementResults(ele, t, sep, path, f), SeqPaths(data, t, sep, prefix, f, i + 1, seen'));
  }

  lemma {:induction false} MapPathsExtend(data: Node, t: SearchTerms, sep: PathSep, prefix: string,
                                          f: SearchFlags, i: nat, seen: seq<string>)
    requires data.MapNode?
    ensures Extends(prefix, MapPaths(data, t, sep, prefix, f, i, seen))
    decreases data, 1, |Pool(data, f)| - i, 1
  {
    if i < |Pool(data, f)| {
      var a := PoolEntry(data, f, i).value.anchor;
      var seen' := if a.Some? && a.value !in seen then seen + [a.value] else seen;
      MapPathsExtend(data, t, sep, prefix, f, i + 1, seen);
      MapPathsExtend(data, t, sep, prefix, f, i + 1, seen');
      MapExtendStep(data, t, sep, prefix, f, i, seen);
    }
  }

  /** The induction step of `MapPathsExtend`. */
  lemma {:induction false} MapExtendStep(data: Node, t: SearchTerms, sep: PathSep, prefix: string,
                                         f: SearchFlags, i: nat, seen: seq<string>)
    requires data.MapNode? && i < |Pool(data, f)|
    requires var a := PoolEntry(data, f, i).value.anchor;
             var seen' := if a.Some? && a.value !in seen then seen + [a.value] else seen;
             Extends(prefix, MapPaths(data, t, sep, prefix, f, i + 1, seen))
             && Extends(prefix, MapPaths(data, t, sep, prefix, f, i + 1, seen'))
    ensures Extends(prefix, MapPaths(data, t, sep, prefix, f, i, seen))
    decreases data, 1, |Pool(data, f)| - i, 0
  {
    var e := PoolEntry(data, f, i);
    var path := KeyPath(prefix, e.key, sep);
    PrefixOfAppend(prefix, Escaped(Escaped(Str(e.key), ['\\']), [SepChar(sep)]));
    if IsContainer(e.value) {
      BelowExtends(e.value, t, sep, prefix, path, f);
    }
  }

  // ---------------------------------------------------------------------
  // Worked examples
  // ---------------------------------------------------------------------

  function IntLeaf(i: int): Node { ScalarNode(IntScalar(i), None) }
  function StrLeaf(s: string): Node { ScalarNode(StrScalar(s, Plain), None) }

  /** `=20` is a hit on the integer 20 only. */
  lemma EqualsTwenty(i: int)
    ensures Hit(SearchTerms(false, Equals, "20"), IntScalar(i)) <==> i == 20
  {
    Text.ParseDecimal(20);
    assert Text.DecimalString(20) == "20";
  }

  /** One step of the sequence branch for an element without an anchor. */
  lemma SeqPathsUnanchored(data: Node, t: SearchTerms, sep: PathSep, prefix: string, f: SearchFlags,
                           i: nat, seen: seq<string>)
    requires data.SeqNode? && i < |data.elems| && data.elems[i].anchor.None?
    ensures SeqPaths(data, t, sep, prefix, f, i, seen)
            == ElementResults(data.elems[i], t, sep, prefix + Text.DecimalString(i) + "]", f)
               + SeqPaths(data, t, sep, prefix, f, i + 1, seen)
  {
  }

  /** The index paths of the elements from `i` on that are hits. */
  function IndexHits(elems: seq<Node>, t: SearchTerms, prefix: string, f: SearchFlags, i: nat): seq<string>
    decreases |elems| - i
  {
    if i >= |elems| then []
    else (if elems[i].ScalarNode? && f.searchValues && Hit(t, elems[i].value) then [prefix + Text.DecimalString(i) + "]"] else [])
         + IndexHits(elems, t, prefix, f, i + 1)
  }

  /** A sequence of scalars without anchors is reported by index: the
      search yields the index paths of its hits, in order. */
  lemma {:induction false} PlainScalarsByIndex(data: Node, t: SearchTerms, sep: PathSep, prefix: string,
                                               f: SearchFlags, i: nat, seen: seq<string>)
    requires data.SeqNode?
    requires forall k :: i <= k < |data.elems| ==> data.elems[k].ScalarNode? && data.elems[k].anchor.None?
    ensures SeqPaths(data, t, sep, prefix, f, i, seen) == IndexHits(data.elems, t, prefix, f, i)
    decreases |data.elems| - i
  {
    if i < |data.elems| {
      PlainScalarsByIndex(data, t, sep, prefix, f, i + 1, seen);
      SeqPathsUnanchored(data, t, sep, prefix, f, i, seen);
    }
  }

  /** `[10, 20, 30]` searched for `=20` yields the one path `[1]`, and in
      slash mode `/[1]`. */
  /** Over scalar elements, a search and its inversion together report
      every element once: their index hits add up to the elements. */
  lemma {:induction false} IndexHitsComplement(elems: seq<Node>, t: SearchTerms, prefix: string,
                                               f: SearchFlags, i: nat)
    requires f.searchValues && i <= |elems|
    requires forall k :: i <= k < |elems| ==> elems[k].ScalarNode?
    ensures var inv := SearchTerms(!t.inverted, t.searchMethod, t.term);
            |IndexHits(elems, t, prefix, f, i)| + |IndexHits(elems, inv, prefix, f, i)| == |elems| - i
    decreases |elems| - i
  {
    if i < |elems| {
      IndexHitsComplement(elems, t, prefix, f, i + 1);
    }
  }

  /** A whole sequence of scalars without anchors: between them, a value
      search and its inversion report exactly as many paths as there are
      elements. */
  lemma InvertedSequenceComplements(d: Node, t: SearchTerms, sep: PathSep, build: string, f: SearchFlags)
    requires d.SeqNode? && f.searchValues
    requires forall k :: 0 <= k < |d.elems| ==> d.elems[k].ScalarNode? && d.elems[k].anchor.None?
    ensures var inv := SearchTerms(!t.inverted, t.searchMethod, t.term);
            |Paths(d, t, sep, build, f)| + |Paths(d, inv, sep, build, f)| == |d.elems|
  {
    var inv := SearchTerms(!t.inverted, t.searchMethod, t.term);
    var pre := SeqPrefix(build, sep);
    PlainScalarsByIndex(d, t, sep, pre, f, 0, []);
    PlainScalarsByIndex(d, inv, sep, pre, f, 0, []);
    IndexHitsComplement(d.elems, t, pre, f, 0);
  }

  lemma ExampleSequenceByIndex(d: Node, t: SearchTerms, sep: PathSep)
    requires d == SeqNode([IntLeaf(10), IntLeaf(20), IntLeaf(30)], None)
    requires t == SearchTerms(false, Equals, "20")
    ensures Paths(d, t, sep, "", DefaultFlags) == [if sep == Dot then "[1]" else "/[1]"]
  {
    var pre := SeqPrefix("", sep);
    var expected := if sep == Dot then "[1]" else "/[1]";
    assert pre + Text.DecimalString(1) + "]" == expected by {
      Text.SmallDecimal(1);
    }
    calc {
      Paths(d, t, sep, "", DefaultFlags);
      SeqPaths(d, t, sep, pre, DefaultFlags, 0, []);
      { PlainScalarsByIndex(d, t, sep, pre, DefaultFlags, 0, []); }
      IndexHits(d.elems, t, pre, DefaultFlags, 0);
      { ExampleIndexHits(d.elems, t, pre); }
      [pre + Text.DecimalString(1) + "]"];
      [expected];
    }
  }

  /** Of `10, 20, 30`, `=20` hits the second only. */
  lemma ExampleIndexHits(elems: seq<Node>, t: SearchTerms, pre: string)
    requires elems == [IntLeaf(10), IntLeaf(20), IntLeaf(30)]
    requires t == SearchTerms(false, Equals, "20")
    ensures IndexHits(elems, t, pre, DefaultFlags, 0) == [pre + Text.DecimalString(1) + "]"]
  {
    assert !Hit(t, IntScalar(10)) && Hit(t, IntScalar(20)) && !Hit(t, IntScalar(30)) by {
      EqualsTwenty(10);
      EqualsTwenty(20);
      EqualsTwenty(30);
    }
    assert IndexHits(elems, t, pre, DefaultFlags, 3) == [];
    assert IndexHits(elems, t, pre, DefaultFlags, 2) == [];
    assert IndexHits(elems, t, pre, DefaultFlags, 1) == [pre + Text.DecimalString(1) + "]"];
  }

  /** One step of the sequence branch for an element with an anchor. */
  lemma SeqPathsAnchored(data: Node, t: SearchTerms, sep: PathSep, prefix: string, f: SearchFlags,
                         i: nat, seen: seq<string>, name: string)
    requires data.SeqNode? && i < |data.elems| && data.elems[i].anchor == Some(name)
    ensures name in seen && !f.includeAliases ==>
              SeqPaths(data, t, sep, prefix, f, i, seen) == SeqPaths(data, t, sep, prefix, f, i + 1, seen)
    ensures !(name in seen && !f.includeAliases) ==>
              SeqPaths(data, t, sep, prefix, f, i, seen)
              == ElementResults(data.elems[i], t, sep, prefix + "&" + Escaped(name, [SepChar(sep)]) + "]", f)
                 + SeqPaths(data, t, sep, prefix, f, i + 1, if name in seen then seen else seen + [name])
  {
  }

  /** The two-element sequence of the alias example, with its path. */
  predicate AliasExample(d: Node, name: string, t: SearchTerms, f: SearchFlags)
  {
    && d == SeqNode([ScalarNode(IntScalar(1), Some(name)), ScalarNode(IntScalar(1), Some(name))], None)
    && '.' !in name
    && t == SearchTerms(false, Equals, "1")
    && f.searchValues
  }

  lemma AliasExampleElements(d: Node, name: string, t: SearchTerms, f: SearchFlags)
    requires AliasExample(d, name, t, f)
    ensures forall k :: 0 <= k < 2 ==>
              ElementResults(d.elems[k], t, Dot, "[" + "&" + Escaped(name, [SepChar(Dot)]) + "]", f)
              == ["[&" + name + "]"]
  {
    var path := "[" + "&" + Escaped(name, [SepChar(Dot)]) + "]";
    assert Hit(t, IntScalar(1)) by {
      Text.ParseDecimal(1);
      Text.SmallDecimal(1);
    }
    assert path == "[&" + name + "]" by {
      EscapedWithoutSymbols(name, [SepChar(Dot)]);
    }
    forall k | 0 <= k < 2 ensures ElementResults(d.elems[k], t, Dot, path, f) == ["[&" + name + "]"] {
      assert d.elems[k] == ScalarNode(IntScalar(1), Some(name));
    }
  }

  /** A sequence holding an anchored scalar and an alias of it: searched
      for `=1` the anchor is reported once by name, and the alias too only
      when aliases are included. */
  lemma ExampleAliasScreened(d: Node, name: string, t: SearchTerms, f: SearchFlags)
    requires AliasExample(d, name, t, f)
    ensures var path := "[&" + name + "]";
            Paths(d, t, Dot, "", f) == if f.includeAliases then [path, path] else [path]
  {
    var path := "[&" + name + "]";
    AliasExampleElements(d, name, t, f);
    SeqPathsAnchored(d, t, Dot, "[", f, 0, [], name);
    SeqPathsAnchored(d, t, Dot, "[", f, 1, [name], name);
    assert [] + [name] == [name];
    assert SeqPaths(d, t, Dot, "[", f, 2, [name]) == [];
    assert SeqPrefix("", Dot) == "[";
  }

  /** A key that matches is reported once, ahead of anything found inside
      its value, and a scalar value under it is not tested. */
  lemma KeyMatchReportedOnce(data: Node, t: SearchTerms, sep: PathSep, prefix: string, f: SearchFlags,
                             i: nat, seen: seq<string>)
    requires data.MapNode? && i < |Pool(data, f)|
    requires KeyMatched(PoolEntry(data, f, i), t, f)
    ensures var e := PoolEntry(data, f, i);
            var path := KeyPath(prefix, e.key, sep);
            MapPaths(data, t, sep, prefix, f, i, seen)
              == [path] + (if IsContainer(e.value) then Paths(e.value, t, sep, path, f) else [])
                 + MapPaths(data, t, sep, prefix, f, i + 1, seen)
  {
  }

  // ---------------------------------------------------------------------
  // validateargs and main
  // ---------------------------------------------------------------------

  /** The parsed command line, as far as the modelled code reads it; an
      unset EYAML key is the empty string. */
  datatype PathsArgs = PathsArgs(searches: seq<string>, pathsep: PathSep, files: seq<string>,
                                 privatekey: string, publickey: string)

  /** What opening and loading one file gives: the document, one of the
      parse errors `main` catches (ParserError, ComposerError, ScannerError),
      or any other failure, which `main` does not catch. */
  datatype FileLoad = Loaded(data: Node) | SyntaxFailure | OtherFailure

  /** The world outside the core: whether a path is a readable file, the
      result of loading each file, and the search terms of each expression
      (`YAMLPath("[*" + expression + "]")`'s first segment, None where
      that raises). */
  datatype PathsEnv = PathsEnv(readable: string -> bool, load: string -> FileLoad,
                               parse: string -> Option<SearchTerms>)

  /** The checks of `validateargs`: each key that is set is readable, and
      neither key is set without the other. */
  predicate ArgsValid(args: PathsArgs, readable: string -> bool)
  {
    && !(args.privatekey != "" && !readable(args.privatekey))
    && !(args.publickey != "" && !readable(args.publickey))
    && !((args.publickey != "" && args.privatekey == "") || (args.privatekey != "" && args.publickey == ""))
  }

  /** `validateargs(args, log)`: whether it found an error (and so exits 1). */
  method ValidateArgs(args: PathsArgs, readable: string -> bool) returns (hasErrors: bool)
    ensures hasErrors == !ArgsValid(args, readable)
  {
    hasErrors := false;
    if args.privatekey != "" && !readable(args.privatekey) {
      hasErrors := true;
    }
    if args.publickey != "" && !readable(args.publickey) {
      hasErrors := true;
    }
    if (args.publickey != "" && args.privatekey == "") || (args.privatekey != "" && args.publickey == "") {
      hasErrors := true;
    }
  }

  /** The EYAML keys must be given both or neither, and each one given must
      be readable. */
  lemma KeysBothOrNeither(args: PathsArgs, readable: string -> bool)
    ensures ArgsValid(args, readable) <==>
              && ((args.privatekey == "") == (args.publickey == ""))
              && (args.privatekey != "" ==> readable(args.privatekey))
              && (args.publickey != "" ==> readable(args.publickey))
  {
  }

  /** What is printed ahead of a result: the file and the expression when
      there are several of them. */
  function LinePrefix(fileCount: nat, exprCount: nat, file: string, expr: string): string
  {
    if fileCount > 1 then
      if exprCount > 1 then file + "[" + expr + "]: " else file + ": "
    else
      if exprCount > 1 then "[" + expr + "]: " else ""
  }

  /** Every line is a prefix followed by the result; with one file and one
      expression it is the bare result. */
  lemma LineShape(fileCount: nat, exprCount: nat, file: string, expr: string, result: string)
    ensures Text.IsSuffix(result, LinePrefix(fileCount, exprCount, file, expr) + result)
    ensures fileCount <= 1 && exprCount <= 1 ==> LinePrefix(fileCount, exprCount, file, expr) + result == result
    ensures fileCount > 1 ==> Text.IsPrefix(file, LinePrefix(fileCount, exprCount, file, expr))
  {
    var p := LinePrefix(fileCount, exprCount, file, expr);
    assert (p + result)[|p + result| - |result|..] == result;
    if fileCount > 1 {
      assert p == file + (p[|file|..]);
    }
  }

  /** The lines printed for a list of results. */
  function Prefixed(prefix: string, results: seq<string>): (r: seq<string>)
    ensures |r| == |results|
    ensures forall k :: 0 <= k < |results| ==> r[k] == prefix + results[k]
  {
    if |results| == 0 then [] else [prefix + results[0]] + Prefixed(prefix, results[1..])
  }

  /** What the search of one file prints, and whether it stopped on an
      expression that did not parse (an uncaught exception). */
  datatype FileRun = FileRun(lines: seq<string>, aborted: bool)

  /** The expressions from index `k` on, run against one loaded file. */
  function FileLines(args: PathsArgs, env: PathsEnv, file: string, data: Node, k: nat): FileRun
    decreases |args.searches| - k
  {
    if k >= |args.searches| then FileRun([], false)
    else match env.parse(args.searches[k])
      case None => FileRun([], true)
      case Some(t) =>
        var rest := FileLines(args, env, file, data, k + 1);
        var prefix := LinePrefix(|args.files|, |args.searches|, file, args.searches[k]);
        FileRun(Prefixed(prefix, Paths(data, t, args.pathsep, "", DefaultFlags)) + rest.lines, rest.aborted)
  }

  /** The exit status and the printed lines of a run. */
  datatype Run = Run(exit: int, lines: seq<string>)

  /** The files from index `i` on, with the exit state so far. */
  function RunFiles(args: PathsArgs, env: PathsEnv, i: nat, exitState: int): Run
    decreases |args.files| - i
  {
    if i >= |args.files| then Run(exitState, [])
    else match env.load(args.files[i])
      case SyntaxFailure => RunFiles(args, env, i + 1, 3)
      case OtherFailure => Run(1, [])
      case Loaded(data) =>
        var here := FileLines(args, env, args.files[i], data, 0);
        if here.aborted then Run(1, here.lines)
        else
          var rest := RunFiles(args, env, i + 1, exitState);
          Run(rest.exit, here.lines + rest.lines)
  }

  /** The whole of `main`: a validation error exits 1 before any file is read. */
  function PathsMainRun(args: PathsArgs, env: PathsEnv): Run
  {
    if !ArgsValid(args, env.readable) then Run(1, []) else RunFiles(args, env, 0, 0)
  }

  /** `main()` from validation on: every file in turn, every expression,
      every result, each printed with its prefix. */
  method PathsMain(args: PathsArgs, env: PathsEnv) returns (exit: int, lines: seq<string>)
    ensures Run(exit, lines) == PathsMainRun(args, env)
  {
    var hasErrors := ValidateArgs(args, env.readable);
    if hasErrors {
      return 1, [];
    }
    var inFileCount := |args.files|;
    var inExpressions := |args.searches|;
    var exitState := 0;
    lines := [];
    var i := 0;
    while i < |args.files|
      invariant 0 <= i <= |args.files|
      invariant exitState == 0 || exitState == 3
      invariant var r := RunFiles(args, env, i, exitState);
                Run(r.exit, lines + r.lines) == RunFiles(args, env, 0, 0)
    {
      var yamlFile := args.files[i];
      match env.load(yamlFile) {
        case SyntaxFailure =>
          exitState := 3;
        case OtherFailure =>
          return 1, lines;
        case Loaded(yamlData) =>
          var here, aborted := SearchFile(args, env, yamlFile, yamlData);
          ConcatAssoc(lines, here, RunFiles(args, env, i + 1, exitState).lines);
          lines := lines + here;
          if aborted {
            return 1, lines;
          }
      }
      i := i + 1;
    }
    exit := exitState;
  }

  /** The expression loop of `main` for one loaded file. */
  method SearchFile(args: PathsArgs, env: PathsEnv, file: string, data: Node)
    returns (lines: seq<string>, aborted: bool)
    ensures FileRun(lines, aborted) == FileLines(args, env, file, data, 0)
  {
    lines := [];
    var k := 0;
    while k < |args.searches|
      invariant 0 <= k <= |args.searches|
      invariant var r := FileLines(args, env, file, data, k);
                FileRun(lines + r.lines, r.aborted) == FileLines(args, env, file, data, 0)
    {
      var printed, parsed := SearchExpression(args, env, file, data, k);
      if !parsed {
        return lines, true;
      }
      ConcatAssoc(lines, printed, FileLines(args, env, file, data, k + 1).lines);
      lines := lines + printed;
      k := k + 1;
    }
    aborted := false;
  }

  /** One turn of the expression loop: parse expression `k` and print its
      results, or report that it does not parse. */
  method SearchExpression(args: PathsArgs, env: PathsEnv, file: string, data: Node, k: nat)
    returns (printed: seq<string>, parsed: bool)
    requires k < |args.searches|
    ensures parsed == env.parse(args.searches[k]).Some?
    ensures !parsed ==> FileLines(args, env, file, data, k) == FileRun([], true)
    ensures parsed ==> var rest := FileLines(args, env, file, data, k + 1);
                       FileLines(args, env, file, data, k) == FileRun(printed + rest.lines, rest.aborted)
  {
    var expression := args.searches[k];
    var terms := env.parse(expression);
    if terms.None? {
      FileLinesUnparsed(args, env, file, data, k);
      return [], false;
    }
    var results := SearchForPaths(data, terms.value, args.pathsep, "", DefaultFlags);
    var prefix := LinePrefix(|args.files|, |args.searches|, file, expression);
    printed := PrintResults(prefix, results);
    parsed := true;
    FileLinesParsed(args, env, file, data, k, printed);
  }

  /** An expression that does not parse ends the file's searches. */
  lemma FileLinesUnparsed(args: PathsArgs, env: PathsEnv, file: string, data: Node, k: nat)
    requires k < |args.searches| && env.parse(args.searches[k]).None?
    ensures FileLines(args, env, file, data, k) == FileRun([], true)
  {
  }

  /** An expression that parses prints its lines ahead of the later ones. */
  lemma FileLinesParsed(args: PathsArgs, env: PathsEnv, file: string, data: Node, k: nat, printed: seq<string>)
    requires k < |args.searches| && env.parse(args.searches[k]).Some?
    requires printed == Prefixed(LinePrefix(|args.files|, |args.searches|, file, args.searches[k]),
                                 Paths(data, env.parse(args.searches[k]).value, args.pathsep, "", DefaultFlags))
    ensures var rest := FileLines(args, env, file, data, k + 1);
            FileLines(args, env, file, data, k) == FileRun(printed + rest.lines, rest.aborted)
  {
  }

  /** The innermost loop of `main`: one printed line per result. */
  method PrintResults(prefix: string, results: seq<string>) returns (printed: seq<string>)
    ensures printed == Prefixed(prefix, results)
  {
    printed := [];
    for j := 0 to |results|
      invariant printed == Prefixed(prefix, results[..j])
    {
      assert results[..j + 1] == results[..j] + [results[j]];
      PrefixedAppend(prefix, results[..j], results[j]);
      printed := printed + [prefix + results[j]];
    }
    assert results[..|results|] == results;
  }

  lemma {:induction false} PrefixedAppend(prefix: string, results: seq<string>, r: string)
    ensures Prefixed(prefix, results + [r]) == Prefixed(prefix, results) + [prefix + r]
  {
    var a := Prefixed(prefix, results + [r]);
    var b := Prefixed(prefix, results) + [prefix + r];
    assert |a| == |b|;
    forall k | 0 <= k < |a| ensures a[k] == b[k] {
      if k < |results| {
        assert (results + [r])[k] == results[k];
      }
    }
  }

  /** Every file that loads, with every expression parsed: exit status 0. */
  predicate AllLoaded(args: PathsArgs, env: PathsEnv, i: nat)
  {
    forall j :: i <= j < |args.files| ==> env.load(args.files[j]).Loaded?
  }

  predicate AllParsed(args: PathsArgs, env: PathsEnv)
  {
    forall k :: 0 <= k < |args.searches| ==> env.parse(args.searches[k]).Some?
  }

  lemma {:induction false} FileLinesAborted(args: PathsArgs, env: PathsEnv, file: string, data: Node, k: nat)
    ensures FileLines(args, env, file, data, k).aborted <==>
              exists j :: k <= j < |args.searches| && env.parse(args.searches[j]).None?
    decreases |args.searches| - k
  {
    if k < |args.searches| {
      FileLinesAborted(args, env, file, data, k + 1);
      if env.parse(args.searches[k]).Some? {
        if exists j :: k <= j < |args.searches| && env.parse(args.searches[j]).None? {
          var j :| k <= j < |args.searches| && env.parse(args.searches[j]).None?;
          assert j != k;
        }
      }
    }
  }

  /** The exit status is 0, 1 or 3; a parse failure leaves a non-zero
      state that later files cannot clear; the status is 0 exactly when
      every file loads and, if any file is searched, every expression parses. */
  lemma {:induction false} RunFilesExit(args: PathsArgs, env: PathsEnv, i: nat, exitState: int)
    requires exitState == 0 || exitState == 3
    ensures var r := RunFiles(args, env, i, exitState);
            && (r.exit == 0 || r.exit == 1 || r.exit == 3)
            && (exitState != 0 ==> r.exit != 0)
            && (r.exit == 0 <==> exitState == 0 && AllLoaded(args, env, i) && (i < |args.files| ==> AllParsed(args, env)))
    decreases |args.files| - i
  {
    if i < |args.files| {
      match env.load(args.files[i])
      case SyntaxFailure =>
        RunFilesExit(args, env, i + 1, 3);
      case OtherFailure =>
      case Loaded(data) =>
        FileLinesAborted(args, env, args.files[i], data, 0);
        RunFilesExit(args, env, i + 1, exitState);
        if FileLines(args, env, args.files[i], data, 0).aborted {
          var j :| 0 <= j < |args.searches| && env.parse(args.searches[j]).None?;
        } else {
          assert AllParsed(args, env);
          if RunFiles(args, env, i + 1, exitState).exit == 0 {
            assert AllLoaded(args, env, i);
          }
        }
    }
  }

  /** `main` exits 0, 1 or 3, and 0 exactly when the arguments are valid,
      every file loads and every expression parses. */
  lemma MainExit(args: PathsArgs, env: PathsEnv)
    requires |args.files| > 0
    ensures var r := PathsMainRun(args, env);
            && (r.exit == 0 || r.exit == 1 || r.exit == 3)
            && (r.exit == 0 <==> ArgsValid(args, env.readable) && AllLoaded(args, env, 0) && AllParsed(args, env))
            && (!ArgsValid(args, env.readable) ==> r.exit == 1 && r.lines == [])
  {
    if ArgsValid(args, env.readable) {
      RunFilesExit(args, env, 0, 0);
    }
  }

  /** With one file and one expression the printed lines are exactly the
      search results, undecorated, found with the default flags whatever
      the command line asked for. */
  lemma SingleFileSingleExpression(args: PathsArgs, env: PathsEnv, data: Node, t: SearchTerms)
    requires ArgsValid(args, env.readable)
    requires |args.files| == 1 && |args.searches| == 1
    requires env.load(args.files[0]) == Loaded(data) && env.parse(args.searches[0]) == Some(t)
    ensures PathsMainRun(args, env) == Run(0, Paths(data, t, args.pathsep, "", DefaultFlags))
  {
    var results := Paths(data, t, args.pathsep, "", DefaultFlags);
    var prefix := LinePrefix(1, 1, args.files[0], args.searches[0]);
    assert prefix == "";
    forall k | 0 <= k < |results| ensures Prefixed(prefix, results)[k] == results[k] {
      assert prefix + results[k] == results[k];
    }
    assert Prefixed(prefix, results) == results;
    assert FileLines(args, env, args.files[0], data, 1) == FileRun([], false);
    assert RunFiles(args, env, 1, 0) == Run(0, []);
  }
}
