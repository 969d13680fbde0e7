# httpapi in Dafny

httpapi is a Go library for HTTP endpoints whose requests and responses are
described by typed shapes. A caller sees the parameters and attributes it may
see, may narrow a response by a projection, and may repeat a request safely
under an idempotency key. This project models the parts of the library where
several functions have to agree with each other, and proves that they do.

**Callers and projections of callers.** `CallerSets` is the allow-list algebra.
`RuleGraphs` and `CallerProjection` are the policy of who may act as whom: a
depth-first search that must report a cycle exactly when there is one, in every
order a Go map can be walked, and a closure that `Resolve` answers from.

**The response-projection index.** `ResponseShapes` is the described shape and the
plain walk over it. `ProjectionTree` builds the tree of nodes with its shared
subtrees, `ProjectionIndex` flattens it into arrays with slots reserved in
advance, `ProjectionSchema` searches the arrays, and `ProjectionRefinement`
proves that the search answers as the plain walk does.

**Rendering.** `Text` and `PropertyPaths` are dotted paths and pick/omit selections.
`Rendering` filters attributes before they are extracted, with every enclosing
resource's selection active at once; the theorem is that this is rendering in
full and then pruning, and a result shows exactly the values the getters deliver.
`RenderedValues` walks a result and its source together. `RenderingMonotone` shows
that selections only remove.
`RenderedSurface` and `IndexedSurface` tie rendering to the index: what the
index offers a caller is what the renderer emits for it. `Envelope` is the
named-field response with exactly-one rules, `EnvelopeSurface` says which of the
paths it describes it can ever emit, and `NestedEnvelopes` when one below other
attributes survives a projection.

**Idempotent execution.** `Idempotency` is a transition system in which any number
of requests share a store whose operations can fail with or without effect, plus
the code of one request as a path of that system. `IdempotencyKeys` is the choice
of key, fingerprint and scope.

**Request parameters.** `ParamShapes` says what parsing a JSON value comes to for a
caller, `ParamMeaning` when a value is what the JSON reads as and when an error is
to blame on it, `ParamParsing` is the parser with its loops, `ParamRestriction`,
`ParamSizes` and `ParamAgreement` compare a definition with the one from which the
caller's unavailable parameters are deleted, and say exactly when the two differ.
`PresenceRules`, `NameCombinations` and
`PresenceSchemas` are presence rules and the JSON Schema written for them;
acceptance follows sections 10.2.1 of JSON Schema Core 2020-12 and 6.5.3 of JSON
Schema Validation 2020-12.

**Smaller codecs and the registry.** `Decimals` and `Quantities` are exact decimals,
`RequestMeta` is the `request_meta` envelope, `Mux` the endpoint registry.

`dafny verify dfyconfig.toml` checks everything. A Go map's iteration order is an
arbitrary choice in every loop over one; panics and Go errors are values.

## Where the code and its promises part

- Cloning a caller set that is restricted to nobody gives the unrestricted set
  (`CallerSets.ClonePreservesAllows`).
- A rule whose minimum exceeds its names is written as an empty `anyOf`, which
  disappears from the document, so the schema accepts what the rule would reject;
  the schemas mean the rule exactly when the minimum fits
  (`PresenceSchemas.SchemasMeanRuleExactly`). The parameter side refuses such a
  rule when it is defined; the schema side takes any rule.
- A parameter that a caller may not use can be noticed in one place. The size
  bounds of an object parameter count the members sent, nulls for unavailable
  parameters included (`ParamSizes.BoundsCountUnavailableNulls`). An object
  parameter parses as if they were not declared exactly when no bound separates
  the two counts (`ParamSizes.ParameterAgreesExactly`). A definition, maps
  included, does so exactly when every bound that parsing reaches judges both
  inputs alike, on every input in which no member's path is a sibling's or lies
  below it (`ParamAgreement.ParsesAlikeExactly`); where two members share a path
  one's error can hide the other's (`ParamAgreement.OverlapHides`). A definition
  without size bounds on objects always agrees
  (`ParamSizes.UnavailableMightAsWellNotExist`).
- A projection that holds a selection without a mode is encoded as `{}`, which
  the parser refuses; a response part without a projection reads back as no
  response part (`RequestMeta.MetaReadsBack`).
- The envelope is recognised by the bytes `"request_meta"` in the body, so a key
  spelled with an escape is neither read nor removed
  (`RequestMeta.EscapedKeyStays`); a well-formed body keeps the member exactly when
  it does not hold those bytes (`RequestMeta.Req.PrepareMeta`).
- A store releases by scope and key, not by owner. Discarding a record is safe
  exactly when no request owns its slot or none is waiting for it
  (`Idempotency.ExpirySafeExactly`). Otherwise two handlers can run at once, and
  the release of the first can take away the reservation of the second
  (`Idempotency.ExpiryAllowsTwo`).
- An idempotency scope joins application, namespace, method and path by `#`, and
  nothing keeps `#` out of the names. Two services that share a store can meet in
  one scope: application `a#b` of `svc` and application `a` of `b#svc`
  (`IdempotencyKeys.ServicesCollide`). Among operations with the same method and
  path a scope is an operation's own exactly when `application#namespace` has one
  cut into two non-empty trimmed parts (`IdempotencyKeys.SameRouteExactly`);
  among all operations, when moreover nothing that looks like another method,
  `#GET#/` or `#POST#/`, can be read inside the names or the path
  (`IdempotencyKeys.ScopeOwnExactly`). A lone `#` in a path does no harm.
- At the top a projection only prunes an envelope. Below another attribute it can
  omit the one field that an exactly-one rule needs, and rendering panics
  (`NestedEnvelopes.ProjectionBreaksRule`); an envelope survives exactly when no
  rule loses its field and some field remains
  (`NestedEnvelopes.EnvelopeBelowScopes`).
- An envelope describes every field it may hold. In an exactly-one rule with a
  required field that the caller sees, the other fields can never be emitted
  (`EnvelopeSurface.RequiredBlocksAlternatives`); a described path can be emitted
  exactly when a field that leads along it can appear
  (`EnvelopeSurface.EmitsExactly`).

## Model

| member | source | states |
|---|---|---|
| CallerSets.SetOf | caller/caller.go:98-117 | builds a set exactly from defined, distinct callers, and otherwise reports the first caller that is undefined or repeated; no callers gives the unrestricted set |
| CallerSets.Intersect | caller/caller.go:159-174 | the result allows exactly the callers both sets allow |
| CallerSets.ClonePreservesAllows | endpoint/contract.go:227-245 | the clone allows the same callers if and only if the set is not restricted to nobody |
| RuleGraphs.RankedIsAcyclic | caller/projection.go:239-277 | a graph whose edges all lead to lower ranks has no cycle |
| CallerProjection.CycleFinder.Visit | caller/projection.go:259-277 | in any successor order, either finishes the caller with everything it reaches ranked below it, or reports a caller on a cycle |
| CallerProjection.CycleFinder.VisitRoots | caller/projection.go:248-257 | in any root order, ends with the whole graph ranked or with a caller on a cycle |
| CallerProjection.FindProjectionCycle | caller/projection.go:239-246 | reports a defined caller if and only if the graph has a cycle, and that caller lies on one |
| CallerProjection.CollectDescendants | caller/projection.go:217-225 | adds only callers reachable from the current one and leaves every addition closed under successors |
| CallerProjection.DescendantsOf | caller/projection.go:135-144 | the collected set is exactly the set of reachable callers |
| CallerProjection.PolicyCtor.IndexRules | caller/projection.go:83-123 | succeeds exactly on defined, distinct callers in distinct rules, and then the edges are the rules |
| CallerProjection.PolicyCtor.EnsureAcyclic | caller/projection.go:125-133 | errors exactly on a rule cycle, and names a caller on it |
| CallerProjection.DefineProjectionPolicy | caller/projection.go:66-151 | admits exactly acyclic lists of distinct rules between defined, distinct callers, and the descendants are their transitive closure |
| CallerProjection.Resolve | caller/projection.go:167-215 | an undefined granted caller is refused; no request, or one for the own label, resolves to the granted caller; any other to the requested one if there is a chain of rules, and otherwise it is an elevation |
| CallerProjection.ResolvePermitsRulePaths | caller/projection.go:167-225 | a distinct target is permitted exactly along a path of rules |
| CallerProjection.ResolveComposes | caller/projection.go:167-225 | permitted projections compose |
| CallerProjection.ResolveNeverElevates | caller/projection.go:167-225 | no two distinct callers can project to each other |
| ResponseShapes.ProjectionObjectShape | request/projection_shape.go:172-192 | the loop ends at the shape behind all arrays and maps |
| ProjectionTree.TreeBuilder.BuildNode | request/projection_shape.go:64-86 | the built tree represents the attributes under intersected availabilities, registers one root per object occurrence in order, and builds no more nodes than the shapes declare |
| ProjectionTree.TreeBuilder.BuildChild | request/projection_shape.go:72-83 | one attribute's node represents what nests below it; only objects become roots |
| ProjectionTree.TreeBuilder.IndexResources | request/projection_shape.go:43-62 | top-level object attributes become roots, and nothing registered before is lost |
| ProjectionTree.RepresentsPath | request/projection_shape.go:64-86 | a tree path is visible exactly when every availability on the way allows the caller |
| ProjectionTree.OccurrencesAccept | request/projection_shape.go:43-86 | some registered occurrence of a resource has a path exactly when the plain walk over the shapes finds it |
| ProjectionIndex.TreeCompiler.CompileNode | request/projection_shape.go:130-170 | compiles a subtree once: the state grows, stays coherent, and the node's number is the one its first visit gave it |
| ProjectionIndex.TreeCompiler.Reserve | request/projection_shape.go:137-152 | reserves the node and its edge slots at the end of the arrays and disturbs no earlier range |
| ProjectionIndex.CompileRoots | request/projection_shape.go:110-120 | appends exactly the numbers of the roots, in order |
| ProjectionIndex.CompileResources | request/projection_shape.go:103-128 | resources ascend by name, each over its own range of roots, whatever order the map is walked in |
| ProjectionIndex.CompiledSharing | request/projection_shape.go:103-170 | as many nodes as distinct tree nodes, as many edges as child links, edge ranges partition the edge array and each is strictly sorted |
| ProjectionSchema.SortSearch | request/projection_schema.go:121-123 | binary search finds the first index of a monotone predicate |
| ProjectionSchema.Child | request/projection_schema.go:185-208 | finds the child along a segment if and only if the node's range has one |
| ProjectionSchema.ResourceRoots | request/projection_schema.go:120-134 | returns the root range of the resource, or nothing when it is unknown |
| ProjectionSchema.HasVisibleRoot | request/projection_schema.go:136-143 | some root is visible to the caller |
| ProjectionSchema.PathAvailableTo | request/projection_schema.go:157-183 | the cut-by-dot loop accepts exactly the paths whose segments lead down visible nodes, for any text without a trailing dot |
| ProjectionSchema.ValidIsProper | request/projection.go:241-251 | a path that a selection can hold never ends in a dot |
| ProjectionSchema.PathAvailable | request/projection_schema.go:145-155 | some root accepts the path |
| ProjectionRefinement.FlatPathIsTreePath | request/projection_shape.go:130-170 | a walk over the arrays from a node's number exists exactly when the walk over the tree from the node does |
| ProjectionRefinement.CompiledRoots | request/projection_shape.go:103-128 | the resources' root ranges follow each other without gap and cover the roots, names strictly ascending |
| ProjectionRefinement.RootListAccepts | request/projection_schema.go:120-218 | the listed roots of a resource accept a path exactly when its registered trees do |
| ProjectionRefinement.PipelineCorrect | request/projection_shape.go:18-170 | building, registering and compiling together give an index that answers as the shapes do, for every resource, path and caller |
| ProjectionRefinement.DeriveResponseProjectionSchema | request/projection_shape.go:18-28 | for every list of shapes that 32-bit numbers can index, the index answers as the plain walk |
| ProjectionRefinement.Validator.ValidateResource | request/projection_schema.go:93-118 | reports the first path of the resource that the caller may not select, or none |
| ProjectionRefinement.Validate | request/projection_schema.go:61-118 | no error exactly when every selected resource and path is visible in the shapes; otherwise the error of the lexically first offending resource |
| ProjectionRefinement.DefinedVerdict | request/projection_schema.go:61-118 | for every projection the constructors can define, the verdict is that of the plain walk over the shapes, without any condition on paths |
| Text.DottedPrefixIsSegmentPrefix | request/projection.go:235-239 | the string test with a dot is the proper prefix order on segment lists, for all strings |
| Text.SegmentsOfJoin | request/projection.go:241-251 | cutting a joined list gives the list back |
| Text.StringLessLexical | request/projection.go:136-143 | strings are ordered by the first place where they differ, where the smaller has ended or has the smaller character |
| Text.TrimCuts | param/util.go:13-23 | trimming cuts whitespace off both ends and nothing else |
| Text.ByteLengthCounts | endpoint/idempotency.go:427-453 | the length in bytes is one for each character and one more from each of U+0080, U+0800 and U+10000 on |
| Text.SortedNames | request/projection.go:136-143 | collecting map keys in any order and sorting gives the ascending list of exactly those keys |
| PropertyPaths.OverlapBySegments | request/projection.go:235-239 | paths overlap exactly when one's segments are a prefix of the other's |
| PropertyPaths.IncludesPath | request/projection.go:65-89 | the loops with early returns decide the pick-or-omit test |
| PropertyPaths.IncludesBySegments | request/projection.go:65-89 | inclusion depends on the path's segments alone |
| PropertyPaths.AncestorsIncluded | request/projection.go:65-89 | whatever includes a path includes its ancestors, in both modes |
| PropertyPaths.DescendantsFollow | request/projection.go:65-89 | a path at or below a selected one is included if and only if the selection picks |
| PropertyPaths.DefinePropertyProjection | request/projection.go:174-200 | accepts exactly non-empty lists of valid paths that stay distinct when trimmed, and otherwise says what is wrong with the first path at fault |
| PropertyPaths.DefineResponseProjection | request/projection.go:202-221 | accepts exactly valid resource names that stay distinct when trimmed, and keeps every selection under its trimmed name; otherwise reports a name that is at fault |
| Rendering.IncludesAttributeLoop | response/property_projection.go:66-76 | an attribute is included when every enclosing scope's selection includes it |
| Rendering.Descend | response/property_projection.go:84-98 | every enclosing path grows by the attribute and the attribute opens a scope of its own |
| Rendering.IncludesIsNotExcluded | response/property_projection.go:66-110 | the scope stack decides as the selections on the chain of enclosing names do |
| Rendering.ProjectShape | response/shape.go:188-239 | the loops over arrays, maps and objects show the source: a scalar its encoding, an array every item at its index, a map every entry under its key, an object exactly the attributes that are available, included and delivered, each under its name |
| Rendering.RenderedDisplays | response/shape.go:188-239 | nothing but the rendering shows the source in that way |
| RenderedValues.ValueAlong | response/attribute.go:126-148 | along any path of attribute names, indices and keys a response has a value exactly when the getters, items and entries lead to a source, and it shows that source; a scalar is its encoding |
| Rendering.ProjectObject | response/object.go:51-68 | an object's field loop emits exactly the available, included and present attributes |
| Rendering.ProjectAttribute | response/attribute.go:135-148 | an attribute that is unavailable or left out yields nothing and its getter is not called, since it need not be callable; an absent one yields nothing; any other yields its value rendered one level deeper |
| Rendering.RenderPrunesBelow | response/property_projection.go:53-98 | below any chain of enclosing attributes, rendering under a projection is rendering in full and pruning |
| Rendering.RenderIsFullThenPruned | response/property_projection.go:53-98 | for every shape, caller, projection and value, the response is the full response for that caller with the excluded attributes pruned |
| RenderingMonotone.SelectionsOnlyRemove | request/projection.go:156-162 | adding resource selections never adds an attribute to any output, at any depth |
| RenderingMonotone.ProjectedWithinFull | response/property_projection.go:66-98 | every projected response lies within the full one |
| RenderedSurface.DescribedUnwraps | response/shape.go:183-231 | the description leads through arrays and maps to the attributes that rendering would use |
| RenderedSurface.RenderedWithinDescribed | response/attribute.go:126-148 | whatever the source, every path in a rendered response is declared for the caller |
| RenderedSurface.DescribedIsRendered | response/attribute.go:126-148 | with nothing missing in the sources, the declared paths for a caller are exactly the rendered ones |
| IndexedSurface.Offers | request/projection_schema.go:120-218 | describing, compiling and searching answers yes exactly for the paths the renderer emits |
| Envelope.EnvelopeShape.Attribute | response/envelope.go:46-68 | adds an attribute exactly when its name and type are new, else changes nothing and panics about the first clash |
| Envelope.EnvelopeShape.ExactlyOneOf | response/envelope.go:73-128 | adds the rule exactly for two or more distinct known names, trimmed, else changes nothing and panics about what is wrong first |
| Envelope.EnvelopeShape.Project | response/envelope.go:139-175 | succeeds exactly on values that can be rendered, and then emits exactly the shown fields, one from every rule and at least one in all, in an object that satisfies the schemas transcribed from the rules; otherwise the panic is that of the first check that fails |
| Envelope.ProjectEnvelopeAttribute | response/envelope.go:346-374 | panics exactly on a reachable attribute that is required but missing or nil, or of another type, and says which |
| Envelope.CheckRules | response/envelope.go:152-170 | the counting loops pass exactly when each rule has one of its names among the keys |
| Envelope.ResponseRules | openapi/internal/schema/schema.go:471-484 | writes one `oneOf` for every exactly-one rule, in order |
| Envelope.SchemasMeanRules | openapi/internal/schema/schema.go:471-484 | the written schemas accept exactly the key sets that pass every rule |
| Envelope.EnvelopeIsFullThenPruned | response/envelope.go:346-374 | under a projection a top-level envelope succeeds exactly when it succeeds in full, and emits the same fields, each pruned below its own name |
| NestedEnvelopes.EnvelopeBelowScopes | response/envelope.go:139-175 | below any chain of attributes an envelope that renders in full renders under a projection if and only if no exactly-one rule loses its field and some field remains; its fields are then the full ones that are kept, each pruned |
| NestedEnvelopes.ProjectionBreaksRule | response/envelope.go:152-170 | a concrete envelope and projection for which rendering in full succeeds and rendering under the projection panics |
| EnvelopeSurface.EmitsExactly | response/envelope.go:139-223 | some values make the envelope emit a path for a caller if and only if a field leads along it that some admissible choice of fields contains |
| EnvelopeSurface.OffersEnvelope | response/envelope.go:210-223 | the compiled index offers every path the envelope can emit for the caller, and when no visible field is shut out by rules and required fields, no other |
| EnvelopeSurface.RequiredBlocksAlternatives | response/envelope.go:152-170 | beside a required visible field of an exactly-one rule, no alternative can ever be emitted |
| Idempotency.HandleIdempotently | endpoint/idempotency.go:201-300 | one request asks the store to reserve and follows the answer: unavailable exactly when that fails, waiting, conflict or the stored response with the marker for a record that is there, and for a free slot the handler and then one completion with its response or one release; a store that does not fail holds afterwards what was promised; all of it is a path of the protocol that moves only this request |
| Idempotency.Settle | endpoint/idempotency.go:254-299 | after the handler exactly one store call: a completion with status, type, header and the body without trailing newlines for a 2xx response that is not streamed and can be encoded, and a release otherwise |
| Idempotency.StepKeepsInv | endpoint/idempotency.go:234-300 | every step, failing store calls, panics and discards included, keeps every record tied to a request on its slot, and a completed record to that request's successful response |
| Idempotency.MutualExclusion | endpoint/idempotency.go:234-300 | in every run in which no record of the slot was discarded under its owner, at most one request on it is between reservation and completion or release |
| Idempotency.NoSecondRun | endpoint/idempotency.go:252-300 | in such a run, between one replayable 2xx and the next handler start on the slot its record is discarded |
| Idempotency.PanicBlocks | endpoint/idempotency.go:252-266 | a panic leaves the reservation: until the record is discarded everyone who asks is told to wait |
| Idempotency.OneSuccess | endpoint/idempotency.go:234-300 | between two successes on a slot its record is discarded |
| Idempotency.ReplaysTheRun | endpoint/idempotency.go:479-507 | in every run, whatever is discarded, every replay has the status, content type, headers plus marker and body without trailing newlines of one earlier handler run on the slot, and goes only to an equal fingerprint |
| Idempotency.ReplaysAgree | endpoint/idempotency.go:479-507 | two replays on a slot are equal when its record is not discarded between them |
| Idempotency.ExpirySafeExactly | endpoint/idempotency.go:86-98 | from any point of such a run, discarding a slot's record keeps one owner at a time in every continuation if and only if no request owns the slot or none waits for it |
| Idempotency.ExpiryAllowsTwo | endpoint/idempotency.go:86-98 | a concrete run in which a discard under an owner lets two handlers run at once and a release removes another request's reservation |
| IdempotencyKeys.NormalizeKey | endpoint/idempotency.go:427-453 | accepts exactly blank text and keys of 1 to 255 bytes without blanks or control characters |
| IdempotencyKeys.KeyFromHeader | endpoint/idempotency.go:402-425 | no header is no key; a quote at one end only, or between quotes what cannot be unquoted, is refused; otherwise the key is the trimmed text, unquoted if it was quoted, and must be valid |
| IdempotencyKeys.SelectKey | endpoint/idempotency.go:302-391 | accepted exactly when header, body and metadata are in order and name no two keys, and, if they name none, the session's key is blank or valid; the key is the header's, else the metadata's, else the session's, else the generated one; two different supplied keys are the mismatch error |
| IdempotencyKeys.SameOperation | endpoint/idempotency.go:455-477 | fingerprints agree exactly when the bodies agree on every member but `request_meta`, and taking it out changes nothing |
| IdempotencyKeys.ScopesDiffer | endpoint/idempotency.go:603-624 | scopes tell operations apart as long as only the path may contain the separator |
| IdempotencyKeys.FormedExactly | endpoint/idempotency.go:603-624 | the operations a scope can be formed for are those with a trimmed, non-empty application and namespace and a rooted path |
| IdempotencyKeys.SameRouteExactly | endpoint/idempotency.go:603-624 | no other operation of the same method and path shares an operation's scope if and only if its application and namespace can be cut in one way only |
| IdempotencyKeys.ScopeOwnExactly | endpoint/idempotency.go:603-624 | no other operation at all does if and only if, moreover, neither the names nor the path hold what can be read as another method |
| IdempotencyKeys.ServicesCollide | endpoint/idempotency.go:172-193 | operations of two services, told apart by their configured namespaces, with one scope |
| ParamParsing.Definition.AddGroup | param/group.go:79-87 | a group adds its parameters in order and its one rule |
| ParamParsing.Definition.Normalize | param/object.go:112-131 | passes exactly on unique parameter names, rules over declared names, and a parser when there are parameters, and otherwise panics about the first check that fails; the index then answers as the list |
| ParamParsing.CheckKeys | param/object.go:140-148 | in any key order, reports one of the offending keys, or none if none offends |
| ParamParsing.ParseShape | param/shape.go:111-231 | a value returned is what the JSON reads as in the shape, and an error returned is to blame on it, in the sense of the next rows; one run gives one of the errors that parsing allows |
| ParamMeaning.ParseMeans | param/shape.go:96-231 | for definitions with unique names, parsing yields exactly the value the JSON reads as: texts, numbers by their digits, enum texts in the list, items in order, entries by key, and an object whose parameters each hold what their own member reads as through their own parser; and exactly the errors to blame: a wrong type, a text not allowed, the first item or parameter that does not read, any entry, a stray key, a rule |
| ParamMeaning.MemberMeans | param/parameter.go:182-242 | a parameter yields nothing, the zero value for an accepted null, or what its member reads as, and is missing, rejected as null, out of its bounds or refused by its parser exactly as the member says |
| ParamMeaning.SizeFaultMeans | param/parameter.go:244-318 | no size error exactly when bytes, number, items or members are within the bounds; otherwise the error is the bound that is broken, size before item count and below before above |
| ParamMeaning.ItemPathShowsIndex | param/shape.go:168-184 | the path of an item shows its index in decimal |
| ParamParsing.ParseArray | param/shape.go:168-184 | the values are what the items read as, in their order; an error is one of the first item that does not read |
| ParamParsing.ParseMap | param/shape.go:212-231 | entries parse in any order; any failing entry may be the one reported |
| ParamParsing.ParseFields | param/object.go:133-187 | keys, then parameters, then rules, then the object's parser, as parsing means |
| ParamParsing.ParseMember | param/parameter.go:182-231 | the value is what the member reads as, and an error is to blame on it: absence, null policies, blank required strings, sizes, shape and parser, in that order |
| ParamParsing.ObjectWithoutKey | param/discriminator.go:150-159 | copies everything but the discriminator |
| ParamParsing.ParsedObjectKeepsItsPromises | param/object.go:138-172 | on success the object's parser is handed exactly the available parameters, every required one present, every rule's visible counts kept, and no key undeclared or unavailable |
| ParamRestriction.WithoutLeavesAvailable | param/object.go:150-162 | the restricted definition has no parameter left, at any depth, that the caller may not use |
| ParamRestriction.SameOffending | param/object.go:140-148 | deleting unavailable parameters and dropping their ignored nulls leaves the offending keys the same |
| ParamRestriction.SameViolation | param/rule.go:36-93 | dropping invisible names and capping minimums changes no verdict and no message of the rules |
| ParamRestriction.RestrictedVariant | param/discriminator.go:61-93 | the same for an object selected by a discriminator, whatever the variants that are not selected |
| ParamRestriction.RestrictedParses | param/object.go:133-187 | where the size bounds that parsing reaches judge alike, parsing for a caller and parsing with the caller's unavailable parameters deleted at every depth give the same value or the same set of errors |
| ParamSizes.UnavailableMightAsWellNotExist | param/object.go:133-187 | without size bounds on objects the two parse alike on every input |
| ParamSizes.ParameterAgreesExactly | param/parameter.go:244-318 | an object parameter parses alike with and without them if and only if no bound of its own separates the members sent from the members kept |
| ParamSizes.SizeErrorsUnder | param/parameter.go:182-231 | a failed parse reports size errors only about places below the value parsed |
| ParamAgreement.ParsesAlikeExactly | param/object.go:133-187 | on inputs in which no member's path is a sibling's or lies below it, the two parses come to the same if and only if every size bound that parsing reaches judges both inputs alike |
| ParamAgreement.OverlapHides | param/shape.go:212-231 | without that, a map with two keys of one path for which they come to the same although a bound separates them |
| ParamSizes.BoundsCountUnavailableNulls | param/parameter.go:244-318 | a definition, caller and input for which the two parse differently |
| PresenceRules.NormalizeNames | param/util.go:25-44 | keeps the trimmed names exactly when there are some, none is blank and none repeats another in lower case; otherwise panics about the first name at fault, or about there being none |
| PresenceRules.NormalizePresenceRule | param/rule.go:95-114 | accepts exactly such names under bounds that fit each other and the names, and otherwise panics about the first check that fails |
| PresenceRules.Apply | param/rule.go:36-93 | the collecting loops pass exactly on rules that are kept; too few present names are reported as a required choice, too many as exclusive, with the visible and the present names in the rule's order |
| PresenceRules.JudgeMeans | param/rule.go:36-68 | the verdict is decided by listing the visible and the present names: kept, too few, or too many |
| PresenceRules.JudgeCounts | param/rule.go:36-68 | a rule passes exactly when enough of its visible names are present, the minimum capped at the visible ones, and not too many |
| PresenceRules.VisibleRuleJudges | param/rule.go:36-93 | the rule over the visible names alone judges the same |
| NameCombinations.Append | openapi/internal/schema/schema.go:300-306 | Go's append, which writes into a shared backing array when there is room |
| NameCombinations.TuplesIncreasing | openapi/internal/schema/schema.go:291-313 | every tuple is increasing and of the asked length |
| NameCombinations.TuplesComplete | openapi/internal/schema/schema.go:291-313 | every increasing tuple of the asked length occurs |
| NameCombinations.TuplesAscend | openapi/internal/schema/schema.go:291-313 | tuples come in strictly ascending index order, hence none twice |
| NameCombinations.TuplesCount | openapi/internal/schema/schema.go:291-313 | there are binomially many |
| NameCombinations.Walker.Walk | openapi/internal/schema/schema.go:296-310 | the backtracking appends exactly the completions of what is selected, although branches share backing arrays |
| NameCombinations.ListCombinations | openapi/internal/schema/schema.go:291-313 | the combinations are the names at those tuples, in that order |
| PresenceSchemas.RequiredNameSchemas | openapi/internal/schema/schema.go:282-289 | one `required` for every combination |
| PresenceSchemas.ParamRuleSchemas | openapi/internal/schema/schema.go:256-280 | the loops write the schemas whose meaning the following rows give |
| PresenceSchemas.CombinationExists | openapi/internal/schema/schema.go:282-313 | some k-combination is among the keys exactly when at least k names are |
| PresenceSchemas.ExactlyOneSingle | openapi/internal/schema/schema.go:260-266 | `oneOf` over single names accepts exactly the key sets with one of the names |
| PresenceSchemas.SchemasMeanRule | openapi/internal/schema/schema.go:256-280 | the schemas accept a key set exactly when it keeps the minimum and the maximum |
| PresenceSchemas.SchemasMeanRuleExactly | openapi/internal/schema/schema.go:256-280 | that holds for all key sets if and only if the minimum does not exceed the number of names |
| PresenceSchemas.ParamRules | openapi/internal/schema/schema.go:241-254 | the loop over an object's rules writes the `allOf` whose meaning the next row gives |
| PresenceSchemas.ObjectSchemasMeanRules | openapi/internal/schema/schema.go:241-280 | an object's schemas together accept exactly the key sets that keep every rule |
| PresenceSchemas.SchemaAgreesWithRule | param/rule.go:36-68 | with every name visible, the schemas accept the present names exactly when the runtime rule passes |
| Decimals.ParseInt64Reads | param/shape.go:57-68 | what parses is exactly an optional sign and digits whose number fits 64 bits, and it parses to that number |
| Decimals.ParseOfFormat | cost/quantity.go:142-160 | formatting and parsing are inverse on every int64 |
| Quantities.ParseQuantity | cost/quantity.go:67-118 | accepts exactly the literals whose scale and signed digits fit; rejects for range exactly when the signed digits leave int64, and for each other reason exactly when it applies |
| Quantities.LiteralUnique | cost/quantity.go:67-102 | a text is at most one literal |
| Quantities.String | cost/quantity.go:142-160 | the padding loop writes the literal with a digit before the point and exactly `scale` behind it |
| Quantities.WrittenSpells | cost/quantity.go:142-160 | the text written for a quantity reads as that quantity, for every int64 and scale |
| Quantities.PrintThenParse | cost/quantity.go:67-160 | printing and then parsing returns the quantity |
| Quantities.SpellsExactly | cost/quantity.go:67-118 | the number a text denotes by place value is exactly value over ten to the scale |
| Quantities.QuantityVariable.UnmarshalText | cost/quantity.go:171-181 | overwrites the quantity only with a parsed one |
| RequestMeta.MetaParser.ParseResourceProjection | request/meta.go:202-284 | adds a resource exactly when its name is valid and it has one mode with acceptable paths, and otherwise reports what is wrong with it |
| RequestMeta.MetaParser.ParseProjection | request/meta.go:184-200 | in any order, succeeds exactly when every resource is acceptable, and otherwise blames one that is not |
| RequestMeta.MetaParser.ParseResponse | request/meta.go:164-182 | attaches the projection under trimmed names, does nothing after an earlier error |
| RequestMeta.Req.PrepareMeta | request/meta.go:67-83 | attaches what the envelope says and takes out `request_meta` and nothing else, and a body that has the member keeps it exactly when it does not hold its name in bytes; reports what is wrong otherwise, and then changes nothing; changes nothing when called again |
| RequestMeta.MetaMeans | request/meta.go:133-200 | metadata is read exactly when the body says it: the key, and every resource's selection under its trimmed name; what is absent or null says nothing |
| RequestMeta.SelectionMeans | request/meta.go:202-284 | a selection is read exactly from an object with the one member `pick` or `omit` that lists valid, distinct paths |
| RequestMeta.ContainsSomewhere | request/meta.go:67-83 | the textual test finds the member's name at some place |
| RequestMeta.EscapedKeyStays | request/meta.go:67-83 | a body whose `request_meta` is spelled with an escape is prepared without metadata and keeps the member |
| RequestMeta.PrepareStripped | request/meta.go:309-325 | a stripped body has nothing more to strip |
| RequestMeta.MetaReadsBack | request/projection.go:98-172 | encoding metadata and reading it back gives the same metadata if and only if every selection is defined |
| Mux.MountedEndpointsForGroup | endpoint/mux.go:229-256 | each endpoint stands under its own method and the rooted path joined from the group's prefix and its pattern, followed by its aliases in order under theirs; there is nothing else |
| Mux.FlattenedLists | endpoint/mux.go:171-190 | the groups of a batch follow each other, each with exactly its endpoints and their aliases |
| Mux.KeysTellRoutes | endpoint/mux.go:277-279 | two routes have the same key exactly when method and path are the same |
| Mux.Registry.PrepareGroups | endpoint/mux.go:171-190 | succeeds exactly when all routes of the batch are new and distinct, and otherwise names the first that is not |
| Mux.Registry.RegisterPrepared | endpoint/mux.go:192-210 | appends the batch and keeps routes, list and served patterns in step |
| Mux.Registry.Mount | endpoint/mux.go:114-126 | mounts the whole batch in group order exactly when its routes are new and distinct, else changes nothing; either way every endpoint and alias of the mounted groups, and nothing else, is listed at its place and registered under its key |
| Mux.MountInParts | endpoint/mux.go:114-210 | a batch can be mounted exactly when its parts can be mounted one after the other, with the same outcome |

## Left out

- Idempotency.NoSecondRun: requests that are neither authorized nor given a scope resolver bypass the store and are not part of the protocol; the store starts empty and request identifiers are distinct.
- ParamRestriction.RestrictedParses: needs `SizesAgree`, because the unconditional statement is false; that the condition is exact is proved in `ParamAgreement` except on inputs in which two members of an object have overlapping paths, where it can fail (`ParamAgreement.OverlapHides`).
- RenderedSurface.DescribedIsRendered: shapes restricted to nobody are excluded, which `AvailableTo` refuses to build.
- HTTP reading and writing, deadlines, streaming, CORS and server wiring.
- JSON text: bodies are trees, and writing text is assumed to be undone by reading it.
- Hashing (taken to be injective), generated keys, clocks and reflection.
- User code: getters and parsers are pure functions; a handler is what it leaves behind.
- Floating point: the float shape, the float branches of integer reading, and the conversion of bounds to float64 before comparing; sizes are compared as integers.
- Arrays and any-values decoded into Go types by the JSON package; enum and shape constructors' panics.
- Unicode lower-casing of rule names, which enters `PresenceRules` as a parameter.
- Decoding of request bodies from readers and bytes.
- Envelopes as a case of the rendering shapes: one envelope below any chain of attributes is covered, a response with several of them is not taken as a whole. Envelope fields of interface type.
- The rest of the schema writer: property schemas, bounds, discriminators, the Swagger 2.0 downgrade, which merges variant properties first-wins and is not a weakening in general, and the document shells.
- Inheritance of group defaults and URL joining, which enters `Mux` as a parameter.
- Pattern conflicts inside the standard library's mux.
- Audit redaction, authentication schemes, cost recording, error constructors.
