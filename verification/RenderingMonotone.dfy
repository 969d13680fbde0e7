/** Selections only take away: adding one never adds an attribute to a rendered
    response. */
module RenderingMonotone {
  import opened CallerSets
  import opened JsonTrees
  import opened PropertyPaths
  import opened Rendering

  /** `a` is `b` with attributes removed, at any depth; arrays keep their length. */
  ghost predicate Within(a: Json, b: Json) {
    match a
    case JObject(fields) =>
      b.JObject? && forall k :: k in fields ==> k in b.fields && Within(fields[k], b.fields[k])
    case JArray(items) =>
      b.JArray? && |items| == |b.items| && forall i :: 0 <= i < |items| ==> Within(items[i], b.items[i])
    case _ => a == b
  }

  ghost predicate WithinFields(a: map<string, Json>, b: map<string, Json>) {
    forall k :: k in a ==> k in b && Within(a[k], b[k])
  }

  lemma {:induction false} WithinReflexive(a: Json)
    ensures Within(a, a)
  {
    match a
    case JObject(fields) =>
      forall k | k in fields ensures Within(fields[k], fields[k]) { WithinReflexive(fields[k]); }
    case JArray(items) =>
      forall i | 0 <= i < |items| ensures Within(items[i], items[i]) { WithinReflexive(items[i]); }
    case _ =>
  }

  /** `more` has every selection of `less`, unchanged. */
  ghost predicate Narrows(more: ResponseProjection, less: ResponseProjection) {
    forall r :: r in less.resources ==> r in more.resources && more.resources[r] == less.resources[r]
  }

  lemma ExcludedGrows(more: ResponseProjection, less: ResponseProjection, trail: seq<string>, name: string)
    requires Narrows(more, less) && Excluded(less, trail, name)
    ensures Excluded(more, trail, name)
  {
    hide LeavesOut, SegmentsOf;
    var j :| 0 <= j < |trail| && LeavesOut(Selection(less, trail[j]), SegmentsOf(trail[j + 1..] + [name]));
    NothingLeftOut(SegmentsOf(trail[j + 1..] + [name]));
    assert LeavesOut(Selection(more, trail[j]), SegmentsOf(trail[j + 1..] + [name]));
  }

  lemma {:induction false} PruneNarrows(
    shape: Shape, more: ResponseProjection, less: ResponseProjection, trail: seq<string>, json: Json)
    requires Narrows(more, less)
    ensures Within(Prune(shape, more, trail, json), Prune(shape, less, trail, json))
    decreases shape, 0
  {
    hide Excluded, Narrows;
    WithinReflexive(json);
    match shape
    case Scalar(_) =>
    case PlainArray =>
    case ArrayOf(item) =>
      if json.JArray? {
        forall i | 0 <= i < |json.items|
          ensures Within(Prune(item, more, trail, json.items[i]), Prune(item, less, trail, json.items[i]))
        {
          PruneNarrows(item, more, less, trail, json.items[i]);
        }
      }
    case MapOf(value) =>
      if json.JObject? {
        forall k | k in json.fields
          ensures Within(Prune(value, more, trail, json.fields[k]), Prune(value, less, trail, json.fields[k]))
        {
          PruneNarrows(value, more, less, trail, json.fields[k]);
        }
      }
    case Object(attributes) =>
      if json.JObject? { PruneFieldsNarrow(attributes, more, less, trail, json.fields); }
  }

  lemma {:induction false} PruneFieldsNarrow(
    attributes: seq<Attribute>, more: ResponseProjection, less: ResponseProjection, trail: seq<string>, fields: map<string, Json>)
    requires Narrows(more, less)
    ensures WithinFields(PruneFields(attributes, more, trail, fields), PruneFields(attributes, less, trail, fields))
    decreases attributes, 1
  {
    hide Excluded, Narrows, Within;
    if attributes != [] {
      var n := |attributes| - 1;
      var name := attributes[n].name;
      PruneFieldsNarrow(attributes[..n], more, less, trail, fields);
      if name in fields { PruneNarrows(attributes[n].shape, more, less, trail + [name], fields[name]); }
      if Excluded(less, trail, name) { ExcludedGrows(more, less, trail, name); }
      PrunedEarlier(attributes[..n], more, less, trail, fields, name);
    }
  }

  /** A field pruned under both projections for a repeated name keeps the relation. */
  lemma {:induction false} PrunedEarlier(
    attributes: seq<Attribute>, more: ResponseProjection, less: ResponseProjection, trail: seq<string>,
    fields: map<string, Json>, name: string)
    requires Narrows(more, less)
    ensures Excluded(more, trail, name) ==> name !in PruneFields(attributes, more, trail, fields)
  {
    hide Excluded;
    if attributes != [] { PrunedEarlier(attributes[..|attributes| - 1], more, less, trail, fields, name); }
  }

  /** Adding selections to a projection only removes attributes from the output. */
  lemma SelectionsOnlyRemove(shape: Shape, caller: Caller, more: ResponseProjection, less: ResponseProjection, v: Source)
    requires WellFormed(shape) && Narrows(more, less)
    ensures Within(Rendered(shape, NewContext(caller, more), v), Rendered(shape, NewContext(caller, less), v))
  {
    RenderIsFullThenPruned(shape, caller, more, v);
    RenderIsFullThenPruned(shape, caller, less, v);
    PruneNarrows(shape, more, less, [], Full(shape, caller, v));
  }

  /** In particular every projected response lies within the full one. */
  lemma ProjectedWithinFull(shape: Shape, caller: Caller, projection: ResponseProjection, v: Source)
    requires WellFormed(shape)
    ensures Within(Rendered(shape, NewContext(caller, projection), v), Full(shape, caller, v))
  {
    SelectionsOnlyRemove(shape, caller, projection, ResponseProjection(map[]), v);
  }
}
