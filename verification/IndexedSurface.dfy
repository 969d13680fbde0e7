/** The whole chain: shapes are described, the descriptions compiled into the
    flat index, the index asked by binary search. Its answer is what the renderer
    does. */
module IndexedSurface {
  import opened CallerSets
  import opened Text
  import opened PropertyPaths
  import opened RenderedSurface
  import Rendering
  import ResponseShapes
  import ProjectionIndex
  import ProjectionSchema
  import Index = ProjectionRefinement

  /** Some response, rendered in full for the caller, has the path below an
      object of that name. */
  ghost predicate Emitted(
    shapes: seq<Rendering.Shape>, sources: seq<Rendering.Source>, caller: Caller, resource: string, segments: seq<string>)
    requires |sources| == |shapes|
  {
    exists i :: 0 <= i < |shapes| &&
      EmitsResourcePath(shapes[i], Rendering.Rendered(shapes[i], Rendering.NewContext(caller, ResponseProjection(map[])), sources[i]),
                        resource, segments)
  }

  ghost predicate Publishable(shapes: seq<Rendering.Shape>) {
    forall i :: 0 <= i < |shapes| ==> Rendering.WellFormed(shapes[i]) && Published(shapes[i])
  }

  ghost predicate AllComplete(shapes: seq<Rendering.Shape>, caller: Caller, sources: seq<Rendering.Source>)
    requires |sources| == |shapes|
  {
    forall i :: 0 <= i < |shapes| ==> Complete(shapes[i], caller, sources[i])
  }

  /** Compiles an index for the shapes and asks it for a path; the index offers
      the path exactly when the renderer emits it. */
  method Offers(
    shapes: seq<Rendering.Shape>, ghost sources: seq<Rendering.Source>, caller: Caller, resource: string, path: string)
    returns (offered: bool)
    requires |sources| == |shapes| && Publishable(shapes) && AllComplete(shapes, caller, sources)
    requires Index.TotalSize(DescribedAll(shapes)) < ProjectionIndex.WIDTH
    ensures offered <==>
      ProjectionSchema.ProperPath(path) && Emitted(shapes, sources, caller, resource, Segments(path))
  {
    hide Segments, ResponseShapes.ShapesHavePath, ProjectionSchema.RootsAccept, ProjectionSchema.Searchable,
      Rendering.WellFormed, Published, Complete, Emitted, ProjectionSchema.IsRootList, ProjectionIndex.Compiled,
      ProjectionIndex.RootsGrounded, ProjectionIndex.Universe;
    ghost var trees, names, state;
    var schema;
    schema, trees, names, state := Index.DeriveResponseProjectionSchema(DescribedAll(shapes));
    var roots := ProjectionSchema.ResourceRoots(schema, resource);
    offered := ProjectionSchema.PathAvailable(schema, roots, path, caller);
    DescribedIsRendered(shapes, sources, caller, resource, Segments(path));
    EmittedMeans(shapes, sources, caller, resource, Segments(path));
  }

  lemma EmittedMeans(
    shapes: seq<Rendering.Shape>, sources: seq<Rendering.Source>, caller: Caller, resource: string, segments: seq<string>)
    requires |sources| == |shapes|
    ensures Emitted(shapes, sources, caller, resource, segments) <==>
            exists i :: 0 <= i < |shapes| &&
              EmitsResourcePath(shapes[i], Rendering.Rendered(shapes[i], Rendering.NewContext(caller, ResponseProjection(map[])), sources[i]),
                                resource, segments)
  {
  }
}
