/** Pick and omit selections over dotted property paths (request/projection.go). */
module PropertyPaths {
  import opened Wrappers
  import opened Text

  datatype Mode = NoMode | Pick | Omit

  /** The zero value, with `NoMode`, selects everything. */
  datatype PropertyProjection = PropertyProjection(mode: Mode, paths: seq<string>) {
    predicate Defined() { mode != NoMode }
  }

  const UNDEFINED_SELECTION := PropertyProjection(NoMode, [])

  datatype ResponseProjection = ResponseProjection(resources: map<string, PropertyProjection>) {
    predicate Defined() { |resources| > 0 }
  }

  /** The selection for a resource; the zero selection when none was supplied. */
  function Selection(projection: ResponseProjection, resource: string): PropertyProjection {
    var name := TrimSpace(resource);
    if name in projection.resources then projection.resources[name] else UNDEFINED_SELECTION
  }

  predicate PathsOverlap(first: string, second: string) {
    first == second || second + "." <= first || first + "." <= second
  }

  /** Whether a handler needs `path`. */
  predicate Includes(selection: PropertyProjection, path: string) {
    var trimmed := TrimSpace(path);
    trimmed == "" ||
    match selection.mode
    case NoMode => true
    case Pick => exists i :: 0 <= i < |selection.paths| && PathsOverlap(trimmed, selection.paths[i])
    case Omit => forall i :: 0 <= i < |selection.paths| ==>
                   !(trimmed == selection.paths[i] || selection.paths[i] + "." <= trimmed)
  }

  /** The loops of `Includes`, with their early returns. */
  method IncludesPath(selection: PropertyProjection, path: string) returns (included: bool)
    ensures included == Includes(selection, path)
  {
    var trimmed := TrimSpace(path);
    if !selection.Defined() || trimmed == "" { return true; }
    match selection.mode
    case Pick =>
      for i := 0 to |selection.paths|
        invariant forall j :: 0 <= j < i ==> !PathsOverlap(trimmed, selection.paths[j])
      {
        if PathsOverlap(trimmed, selection.paths[i]) { return true; }
      }
      return false;
    case Omit =>
      for i := 0 to |selection.paths|
        invariant forall j :: 0 <= j < i ==>
          !(trimmed == selection.paths[j] || selection.paths[j] + "." <= trimmed)
      {
        if trimmed == selection.paths[i] || selection.paths[i] + "." <= trimmed { return false; }
      }
      return true;
    case NoMode =>
      return true;
  }

  // ------------------------------------------- selections as segment orders

  /** The path and everything below it, or everything above it, by segments. */
  ghost predicate Comparable(a: seq<string>, b: seq<string>) {
    a <= b || b <= a
  }

  /** What a selection leaves out, said on segment lists: a pick leaves out what
      is neither above nor below a picked path, an omission what it names and
      everything below. */
  ghost predicate LeavesOut(selection: PropertyProjection, segments: seq<string>) {
    match selection.mode
    case NoMode => false
    case Pick => forall i :: 0 <= i < |selection.paths| ==> !Comparable(segments, Segments(selection.paths[i]))
    case Omit => exists i :: 0 <= i < |selection.paths| && Segments(selection.paths[i]) <= segments
  }

  /** The string tests with a trailing dot are the prefix order on segments. */
  lemma OverlapBySegments(first: string, second: string)
    ensures PathsOverlap(first, second) <==> Comparable(Segments(first), Segments(second))
  {
    hide Segments;
    DottedPrefixIsSegmentPrefix(first, second);
    DottedPrefixIsSegmentPrefix(second, first);
    if Segments(first) == Segments(second) { SegmentsInjective(first, second); }
  }

  lemma CoversBySegments(omitted: string, path: string)
    ensures path == omitted || omitted + "." <= path <==> Segments(omitted) <= Segments(path)
  {
    hide Segments;
    DottedPrefixIsSegmentPrefix(omitted, path);
    if Segments(omitted) == Segments(path) { SegmentsInjective(omitted, path); }
  }

  /** Inclusion of a dotted path is decided by its segments alone. */
  lemma IncludesBySegments(selection: PropertyProjection, path: string)
    requires Trimmed(path) && path != ""
    ensures Includes(selection, path) <==> !LeavesOut(selection, Segments(path))
  {
    hide Segments, PathsOverlap, Comparable, TrimSpace;
    TrimmedIsFixed(path);
    forall i | 0 <= i < |selection.paths|
      ensures PathsOverlap(path, selection.paths[i]) <==> Comparable(Segments(path), Segments(selection.paths[i]))
      ensures path == selection.paths[i] || selection.paths[i] + "." <= path <==> Segments(selection.paths[i]) <= Segments(path)
    {
      OverlapBySegments(path, selection.paths[i]);
      CoversBySegments(selection.paths[i], path);
    }
  }

  /** Keeping a path keeps its ancestors, in both modes: an object that
      contains something selected is never dropped. */
  lemma AncestorsIncluded(selection: PropertyProjection, ancestor: string, path: string)
    requires Trimmed(ancestor) && Trimmed(path) && path != ""
    requires Segments(ancestor) <= Segments(path) && Includes(selection, path)
    ensures Includes(selection, ancestor)
  {
    hide Segments, TrimSpace, PathsOverlap;
    TrimmedIsFixed(ancestor);
    IncludesBySegments(selection, path);
    if ancestor != "" {
      IncludesBySegments(selection, ancestor);
      AncestorsKept(selection, Segments(ancestor), Segments(path));
    }
  }

  lemma AncestorsKept(selection: PropertyProjection, ancestor: seq<string>, segments: seq<string>)
    requires ancestor <= segments && !LeavesOut(selection, segments)
    ensures !LeavesOut(selection, ancestor)
  {
    if selection.mode == Pick {
      var i :| 0 <= i < |selection.paths| && Comparable(segments, Segments(selection.paths[i]));
      var picked := Segments(selection.paths[i]);
      if picked <= segments {
        assert forall k :: 0 <= k < |ancestor| && k < |picked| ==> ancestor[k] == picked[k];
      }
      assert Comparable(ancestor, picked);
    }
  }

  /** Selecting a property selects everything below it: a pick includes every
      path below, an omission none. */
  lemma DescendantsFollow(selection: PropertyProjection, i: nat, below: string)
    requires i < |selection.paths| && Segments(selection.paths[i]) <= Segments(below)
    requires Trimmed(below) && below != "" && selection.mode != NoMode
    ensures Includes(selection, below) <==> selection.mode == Pick
  {
    hide Segments, Includes;
    IncludesBySegments(selection, below);
    assert Comparable(Segments(below), Segments(selection.paths[i]));
  }

  // ----------------------------------------------------------- definitions

  predicate NameChar(c: char) {
    'a' <= c <= 'z' || 'A' <= c <= 'Z' || '0' <= c <= '9' || c == '_' || c == '-'
  }

  predicate ValidName(name: string) {
    name != "" && forall i :: 0 <= i < |name| ==> NameChar(name[i])
  }

  predicate ValidPath(path: string) {
    path != "" && forall i :: 0 <= i < |Segments(path)| ==> ValidName(Segments(path)[i])
  }

  predicate ValidSelection(mode: Mode, paths: seq<string>) {
    && mode != NoMode && paths != []
    && (forall i :: 0 <= i < |paths| ==> ValidPath(TrimSpace(paths[i])))
    && DistinctStrings(TrimAll(paths))
  }

  datatype SelectionError = UnsupportedMode | NoPaths | InvalidPath(path: string) | DuplicatePath(path: string)

  ghost predicate ValidPaths(paths: seq<string>) {
    (forall i :: 0 <= i < |paths| ==> ValidPath(TrimSpace(paths[i]))) && DistinctStrings(TrimAll(paths))
  }

  /** Why a selection is refused: its mode, no paths, or the first path that is
      invalid or repeated. */
  ghost predicate SelectionRefused(mode: Mode, paths: seq<string>, error: SelectionError) {
    if mode == NoMode then error == UnsupportedMode
    else if paths == [] then error == NoPaths
    else exists i :: 0 <= i < |paths| && ValidPaths(paths[..i]) && FirstBadPath(paths, i, error)
  }

  ghost predicate FirstBadPath(paths: seq<string>, i: nat, error: SelectionError)
    requires i < |paths|
  {
    var path := TrimSpace(paths[i]);
    if !ValidPath(path) then error == InvalidPath(path)
    else path in TrimAll(paths[..i]) && error == DuplicatePath(path)
  }

  method DefinePropertyProjection(mode: Mode, paths: seq<string>) returns (r: Result<PropertyProjection, SelectionError>)
    ensures r.Ok? <==> ValidSelection(mode, paths)
    ensures r.Ok? ==> r.value == PropertyProjection(mode, TrimAll(paths))
    ensures r.Err? ==> SelectionRefused(mode, paths, r.error)
  {
    hide Segments, TrimSpace, ValidPath;
    if mode == NoMode { return Err(UnsupportedMode); }
    if |paths| == 0 { return Err(NoPaths); }
    var normalized: seq<string> := [];
    var seen: set<string> := {};
    for i := 0 to |paths|
      invariant normalized == TrimAll(paths)[..i] == TrimAll(paths[..i])
      invariant forall x :: x in seen <==> x in normalized
      invariant forall j :: 0 <= j < i ==> ValidPath(TrimSpace(paths[j]))
      invariant DistinctStrings(normalized)
    {
      var path := TrimSpace(paths[i]);
      assert ValidPaths(paths[..i]);
      if !ValidPath(path) {
        assert FirstBadPath(paths, i, InvalidPath(path));
        return Err(InvalidPath(path));
      }
      if path in seen {
        var j :| 0 <= j < i && normalized[j] == path;
        assert TrimAll(paths)[j] == TrimAll(paths)[i];
        assert FirstBadPath(paths, i, DuplicatePath(path));
        return Err(DuplicatePath(path));
      }
      assert path !in normalized;
      seen := seen + {path};
      normalized := normalized + [path];
    }
    return Ok(PropertyProjection(mode, normalized));
  }

  datatype ResourceNameError = InvalidResource(name: string) | DuplicateResource(name: string)

  /** Trimming keeps every name valid and keeps different names different. */
  ghost predicate ValidResources(resources: map<string, PropertyProjection>) {
    && (forall r :: r in resources ==> ValidName(TrimSpace(r)))
    && (forall r, q :: r in resources && q in resources && r != q ==> TrimSpace(r) != TrimSpace(q))
  }

  /** `normalized` is `resources` under trimmed names. */
  ghost predicate Renamed(resources: map<string, PropertyProjection>, normalized: map<string, PropertyProjection>) {
    && (forall r :: r in resources ==> TrimSpace(r) in normalized && normalized[TrimSpace(r)] == resources[r])
    && (forall n :: n in normalized ==> exists r :: r in resources && TrimSpace(r) == n)
  }

  /** Why a map of selections is refused; of several bad names any may be named. */
  ghost predicate ResourceRefused(resources: map<string, PropertyProjection>, error: ResourceNameError) {
    match error
    case InvalidResource(name) => !ValidName(name) && exists r :: r in resources && TrimSpace(r) == name
    case DuplicateResource(name) =>
      ValidName(name) && exists r, q :: r in resources && q in resources && r != q && TrimSpace(r) == TrimSpace(q) == name
  }

  method DefineResponseProjection(resources: map<string, PropertyProjection>)
    returns (r: Result<ResponseProjection, ResourceNameError>)
    ensures r.Ok? <==> ValidResources(resources)
    ensures r.Ok? ==> Renamed(resources, r.value.resources)
    ensures r.Err? ==> ResourceRefused(resources, r.error)
  {
    hide TrimSpace, ValidName, ValidResources, Renamed, ResourceRefused;
    RenamedNone();
    if |resources| == 0 {
      assert resources == map[];
      return Ok(ResponseProjection(map[]));
    }
    var normalized: map<string, PropertyProjection> := map[];
    var left := resources.Keys;
    ghost var done: map<string, PropertyProjection> := map[];
    while left != {}
      invariant left <= resources.Keys && done == map q | q in resources && q !in left :: resources[q]
      invariant ValidResources(done) && Renamed(done, normalized)
      decreases |left|
    {
      var resource :| resource in left;
      left := left - {resource};
      var name := TrimSpace(resource);
      if !ValidName(name) {
        InvalidRefused(resources, resource);
        return Err(InvalidResource(name));
      }
      if name in normalized {
        RepeatedRefused(resources, done, normalized, resource);
        return Err(DuplicateResource(name));
      }
      RenamedMore(done, normalized, resource, resources[resource]);
      done := done[resource := resources[resource]];
      normalized := normalized[name := resources[resource]];
    }
    assert done == resources;
    return Ok(ResponseProjection(normalized));
  }

  lemma RenamedNone()
    ensures ValidResources(map[]) && Renamed(map[], map[])
  {
  }

  lemma InvalidRefused(resources: map<string, PropertyProjection>, resource: string)
    requires resource in resources && !ValidName(TrimSpace(resource))
    ensures !ValidResources(resources) && ResourceRefused(resources, InvalidResource(TrimSpace(resource)))
  {
    hide TrimSpace, ValidName;
  }

  lemma RepeatedRefused(
    resources: map<string, PropertyProjection>, done: map<string, PropertyProjection>,
    normalized: map<string, PropertyProjection>, resource: string)
    requires Renamed(done, normalized) && done.Keys <= resources.Keys && resource in resources && resource !in done
    requires ValidName(TrimSpace(resource)) && TrimSpace(resource) in normalized
    ensures !ValidResources(resources) && ResourceRefused(resources, DuplicateResource(TrimSpace(resource)))
  {
    hide TrimSpace, ValidName;
    var q :| q in done && TrimSpace(q) == TrimSpace(resource);
    assert q in resources && q != resource;
  }

  lemma RenamedMore(
    done: map<string, PropertyProjection>, normalized: map<string, PropertyProjection>, r: string, selection: PropertyProjection)
    requires ValidResources(done) && Renamed(done, normalized) && r !in done
    requires ValidName(TrimSpace(r)) && TrimSpace(r) !in normalized
    ensures ValidResources(done[r := selection])
    ensures Renamed(done[r := selection], normalized[TrimSpace(r) := selection])
  {
    hide TrimSpace, ValidName;
    var more, renamed := done[r := selection], normalized[TrimSpace(r) := selection];
    forall n | n in renamed ensures exists q :: q in more && TrimSpace(q) == n {
      if n == TrimSpace(r) {
        assert r in more;
      } else {
        var q :| q in done && TrimSpace(q) == n;
        assert q in more;
      }
    }
  }

  /** A valid name has nothing to trim and no dot to cut at. */
  lemma ValidNamePlain(name: string)
    requires ValidName(name)
    ensures Trimmed(name) && '.' !in name
  {
    assert NameChar(name[0]) && NameChar(name[|name| - 1]) && !NameChar('.');
  }
}
