# Verified models of the OAS generator and the REST dynamic controller

Two controllers are modelled here. The generator (`oasgen-provider`) turns an OpenAPI document into a custom
resource definition, shares that definition with other generators and retires its old versions. The dynamic
controller (`rest-dynamic-controller`) reconciles custom resources against a remote API and keeps its memory in
annotations and conditions. `dafny verify dfyconfig.toml` checks everything.

Code that changes objects in place is modelled by classes and methods over a heap or over fields; each method is
proved against a function on values, and the properties are lemmas about those functions. Protocols are state
machines over single requests, with a failure or a crash possible between any two of them; their theorems hold in
every state of every run.

## Schema compilation

`SchemaGraph`, `PrepareSchema`: schemas are objects that point at each other, in cycles too. Preparation rewrites
`number` to `integer` and merges `allOf` away; it is a walk over the graph that nothing but its visited set stops.
On any graph it ends, leaves no `number` as the primary type of what it visited, and touches nothing else. It leaves no
`allOf` either, exactly unless an enum that would have to be merged holds an array or an object: such a value is no Go
map key, the merge panics, the panic is recovered, and the schema stays half merged.
`SchemaMerge`, `MergedGraph`: what a schema with parts ends as, said on the contents of the schema and of its parts,
with `Lists` for what it means to keep some elements of a list in order: required names and enum values without
repeats, own ones first, in order of first appearance. A part counts as what it ends as, unless it leads back to the
schema: on a cycle of parts that cannot hold for all of them (`MergedGraph.CycleMisses`).
`SchemaTree`, `SchemaAcceptance`, `SchemaRefinement`, `SchemaLimits`: on tree-shaped schemas the walk computes a tree
function. With schemas read as sets of JSON documents, `allOf` as conjunction (JSON Schema Core 2020-12, section
10.2.1.1; Validation 2020-12, sections 6.1.1, 6.1.2 and 6.5.3), preparation never loses a document whose numbers are
integers, merges cut short included, and on well-behaved schemas it gains none. `SchemaLimits` holds a schema for each
way out of that fragment.

`IncludeTree`, `IncludedSpecFields`, `RetainSpecFields`: the allowlist of spec fields is built into a linked tree,
checked against the schema, and pruned to in place. What survives is exactly what is comparable by prefix to a
declared path, or always kept.

`StatusSchema`, `StatusComposition`: the status schema is grown field by field. `SchemaComparison`: two response
schemas are compared by a walk over pairs that forgets a pair on the way back; what it reports, code and path, is exactly
what is at fault on the ways that step from pair to pair, with faults and steps defined on the schemas alone.

## The shared definition

`CrdVersions`, `CrdTopology`, `CrdMerge`: versions are appended next to a vacuum version that stores everything, replaced
in place, or removed, and what each of them keeps. `CrdApply`: one apply and one prune as their caller runs them, retrying while others write.
`CrdProtocol`, `CrdOwnership`, `CrdStorage`, `CrdSuccess`: any number of applies and prunes, each of them several
requests long, interleave on one object behind compare-and-swap writes. `ServedVersionPrune`: retiring versions takes
two writes. `AuthSecretRbac`, `GeneratorBuild`, `StatusWrite`, `FixedPoint`: one successful update of a RestDefinition
leaves the next observe none of its drift branches to take, and each later change is reported.

## The reconcile machine

`Requests`: a request may return an error and take effect all the same. `Annotations`: merge patches (section 2 of
RFC 7396) and counters kept in text. `DriftBrake`: an update that does not
resolve a difference is not repeated forever. `Dispatch`: a call that must not be made twice for one token.
`AsyncRequeue`, `AsyncRuns`: operations triggered once and polled later. `DeleteArbiter`: when the finalizer may go.
`LookupRunner`: which lookups a call needs, in one reverse sweep. `SpecProjection`: the fields of a spec that a drift
comparison reads.

## Where the code differs from what its comments say

- `allOf` is not always flattened: an array or object in an enum that a merge has to de-duplicate makes the merge panic
  (`helpers.go:470-475` notes the panic), the recovery in `helpers.go:86-92` reports success, and the schema keeps its
  parts and its own properties unprepared (`SchemaLimits.AllOfKept`); when this happens is settled by
  `PrepareSchema.AllOfCleared` and `PrepareSchema.KeptExactly`. Behind such a schema an enum can get lost altogether
  (`SchemaLimits.EnumBehindCutLost`), which is why a well-behaved schema excludes it.
- A lookup that waits for its referent is not retried by the next reconcile, as the comment in
  `restResources.go:1118-1121` has it, unless the kind has neither a get nor a findby verb: the wait is recorded as
  Pending, and a resource that is looked for and missing while Pending is answered as existing and up to date
  (`AsyncRuns.MissingRetried`).
- For the same reason "handle gone, operation failed, still Pending", which the comment at `async_requeue.go:250-252`
  rules out, is reachable: exactly for definitions that poll some verb by requeueing and have some verb with a lookup
  that may wait, updates counting only where there is a get or a findby verb (`AsyncRuns.StuckExactly`).
- `AdoptedFrom` is not set to the last verdict on every attempt, as `apply.go:180-182` says: an attempt that reads its
  own name, or none, leaves the earlier note in place (`CrdOwnership.StaleAdoption`). A success reports whom it displaced
  exactly if its last attempt displaced somebody or no earlier one found an owner gone
  (`CrdApply.Server.ApplyOrUpdateCRD`).
- The condition written when the drift brake engages says that the update was issued as often as the difference was
  reported; it was requested at least one time less (`DriftBrake.OneStretch`).
- Merging a version that is already there under another group or kind, while no vacuum stores, takes the storage flag
  off the only storage version (`CrdTopology.MergedSound`).

## Model

| member | source | states |
|---|---|---|
| `SchemaGraph.ConvertedPrimary` | go/oasgen-provider/internal/tools/oas2jsonschema/helpers.go:15-22 | rewriting `number` changes a primary type exactly when it is `number`, to `integer`, null entries ahead of it or not |
| `SchemaGraph.PrimaryLeads` | go/oasgen-provider/internal/tools/oas2jsonschema/helpers.go:15-22 | the primary type is the first one that is not null |
| `SchemaGraph.ConvertedExactly` | go/oasgen-provider/internal/tools/oas2jsonschema/helpers.go:198-207 | where `number` leads, every `number` is `integer` afterwards, and no other entry changes |
| `SchemaGraph.FirstSeenElements` | go/oasgen-provider/internal/tools/oas2jsonschema/helpers.go:455-489 | de-duplication keeps the elements, drops every repeat, and leaves a repeat-free list alone |
| `SchemaGraph.FirstSeenSelects` | go/oasgen-provider/internal/tools/oas2jsonschema/helpers.go:455-489 | de-duplication keeps each element at its first place, in order |
| `SchemaGraph.DedupeFirstSeen` | go/oasgen-provider/internal/tools/oas2jsonschema/helpers.go:455-468 | the loop over two lists of strings yields each once, in order of first appearance |
| `SchemaGraph.DedupeValuesFirstSeen` | go/oasgen-provider/internal/tools/oas2jsonschema/helpers.go:470-489 | so does the one over enum values, and it panics iff some value is an array or an object |
| `PrepareSchema.ConvertNumberToInteger` | go/oasgen-provider/internal/tools/oas2jsonschema/helpers.go:198-207 | every `number` in the type list becomes `integer`, nothing else of any schema changes |
| `PrepareSchema.PrepareSchemaForCRD` | go/oasgen-provider/internal/tools/oas2jsonschema/helpers.go:57-195 | on any graph, cyclic or not, the in-place walk, recovered panics included, ends with the unvisited schemas as measure and leaves exactly the store and visited set that the walk function gives |
| `PrepareSchema.MergeAllOfParts` | go/oasgen-provider/internal/tools/oas2jsonschema/helpers.go:107-185 | the allOf loop prepares the parts in order, inherits a missing type on the way, and merges what it collected, whatever the parts share; it is recovered from iff the enum values to be merged include an array or object; what the merge leaves is `MergedGraph.GraphMerged` |
| `PrepareSchema.AdoptProperties` | go/oasgen-provider/internal/tools/oas2jsonschema/helpers.go:143-158 | merged properties are appended in order unless their name is taken |
| `PrepareSchema.GraphPrepared` | go/oasgen-provider/internal/tools/oas2jsonschema/helpers.go:57-195 | on any graph: a visited schema has no `number` as primary type, keeps all of its allOf or none, and if none its final properties lead only to visited schemas; what was not visited is unchanged |
| `PrepareSchema.AllOfCleared` | go/oasgen-provider/internal/tools/oas2jsonschema/helpers.go:86-92 | no visited schema keeps its allOf iff, in the input, nothing the root leads to by items, parts and properties is a schema with parts that has an array or object in its enum or in the enum of a part without parts and properties |
| `PrepareSchema.VisitedLedTo` | go/oasgen-provider/internal/tools/oas2jsonschema/helpers.go:75-84 | the walk visits only what the root leads to in the input |
| `PrepareSchema.ClearedVisitsAll` | go/oasgen-provider/internal/tools/oas2jsonschema/helpers.go:187-192 | a walk on which every allOf is merged away visits all of it |
| `PrepareSchema.KeptExactly` | go/oasgen-provider/internal/tools/oas2jsonschema/helpers.go:180-184 | one schema keeps its allOf iff it has one and the enum values to be merged then include an array or object |
| `PrepareSchema.PrepareSettles` | go/oasgen-provider/internal/tools/oas2jsonschema/helpers.go:75-84 | the same from any point of the walk on, earlier visited schemas skipped: every schema visited from there on ends as the input decides |
| `MergedGraph.NamesUnited` | go/oasgen-provider/internal/tools/oas2jsonschema/helpers.go:162-181 | on any graph, in the store the walk leaves: a visited schema with parts, none of which leads back to it, requires without repeats exactly what it did and what its parts end with, in order of first appearance; so its enum, with those of the parts without properties, unless the merge was cut |
| `MergedGraph.MergedFromFinal` | go/oasgen-provider/internal/tools/oas2jsonschema/helpers.go:94-184 | the whole of such a schema: types, properties whose name is new, required names and enum are those of itself and of what its parts end as |
| `MergedGraph.GraphMerged` | go/oasgen-provider/internal/tools/oas2jsonschema/helpers.go:75-184 | on any graph, cycles included, each visited schema is the merge of itself and its parts, each part as it ends or, if it leads back to the schema, maybe as it was |
| `MergedGraph.CycleMisses` | go/oasgen-provider/internal/tools/oas2jsonschema/helpers.go:75-84 | three schemas on and beside a cycle of parts: one ends without a required name that its part ends with |
| `SchemaMerge.MergedOf` | go/oasgen-provider/internal/tools/oas2jsonschema/helpers.go:143-184 | one merge in terms of the contents of the schema and of its parts |
| `SchemaMerge.AdoptedSelects` | go/oasgen-provider/internal/tools/oas2jsonschema/helpers.go:143-158 | of the parts' properties those are kept, in order, whose name stands there first and is not the schema's own |
| `SchemaMerge.ListTypes` | go/oasgen-provider/internal/tools/oas2jsonschema/helpers.go:129-131 | a schema without types ends with the types of the first part that has any |
| `SchemaRefinement.PrepareRefines` | go/oasgen-provider/internal/tools/oas2jsonschema/helpers.go:57-195 | on an unshared tree the walk leaves the prepared tree in place and visits only the tree; a merged property that its part had prepared is skipped, one that a cut merge left is prepared by whoever merges it next |
| `SchemaRefinement.TreePrepared` | go/oasgen-provider/internal/tools/oas2jsonschema/helpers.go:43-53 | preparing a whole tree leaves the prepared tree, and every object outside it as it was |
| `SchemaAcceptance.PreparationLoosens` | go/oasgen-provider/internal/tools/oas2jsonschema/helpers.go:94-192 | for every tree, an integer-numbered document accepted by the vendor's schema is accepted by the prepared one |
| `SchemaAcceptance.PreparationExact` | go/oasgen-provider/internal/tools/oas2jsonschema/helpers.go:106-185 | on a well-behaved schema the prepared schema accepts no other integer-numbered document |
| `SchemaAcceptance.PreparationPreservesAcceptance` | go/oasgen-provider/internal/tools/oas2jsonschema/helpers.go:94-192 | on a well-behaved schema both accept the same integer-numbered documents |
| `SchemaAcceptance.ConvertedAccepts` | go/oasgen-provider/internal/tools/oas2jsonschema/helpers.go:94-97 | for such documents the rewritten types accept the same |
| `SchemaLimits.FractionLost` | go/oasgen-provider/internal/tools/oas2jsonschema/helpers.go:94-97 | a fraction accepted as `number` is refused afterwards |
| `SchemaLimits.EnumsUnited` | go/oasgen-provider/internal/tools/oas2jsonschema/helpers.go:123-127 | the enums of two parts are united, where conjunction intersects them |
| `SchemaLimits.OwnEnumUnited` | go/oasgen-provider/internal/tools/oas2jsonschema/helpers.go:181 | so are a part's enum and the schema's own |
| `SchemaLimits.EnumBesidePropertiesDropped` | go/oasgen-provider/internal/tools/oas2jsonschema/helpers.go:123-127 | the enum of a part that has properties is dropped |
| `SchemaLimits.PartItemsDropped` | go/oasgen-provider/internal/tools/oas2jsonschema/helpers.go:119-140 | the items of a part are dropped |
| `SchemaLimits.OtherTypeDropped` | go/oasgen-provider/internal/tools/oas2jsonschema/helpers.go:129-139 | of two different types the schema's own is kept |
| `SchemaLimits.TakenNameDropped` | go/oasgen-provider/internal/tools/oas2jsonschema/helpers.go:149-158 | a part's property whose name the schema has is dropped with its constraints |
| `SchemaLimits.NameInTwoPartsDropped` | go/oasgen-provider/internal/tools/oas2jsonschema/helpers.go:149-158 | so is one whose name an earlier part has |
| `SchemaLimits.EnumBehindCutLost` | go/oasgen-provider/internal/tools/oas2jsonschema/helpers.go:119-184 | an enum with an array stays with the part that could not merge it, and is lost when that part is merged |
| `SchemaLimits.AllOfKept` | go/oasgen-provider/internal/tools/oas2jsonschema/helpers.go:86-92 | an enum with an array on a schema with parts: the allOf stays, and a `number` property is never visited |
| `SchemaLimits.InheritedArrayItems` | go/oasgen-provider/internal/tools/oas2jsonschema/helpers.go:99-131 | the items of a schema that only inherits the type array stay unprepared |
| `IncludeTree.IncludeNode.Insert` | go/oasgen-provider/internal/tools/oas2jsonschema/included_spec_fields.go:28-39 | adds the nodes that were missing on the way and marks the last one; the nodes stay one linked tree and the rest of it says what it said |
| `IncludeTree.InsertSpells` | go/oasgen-provider/internal/tools/oas2jsonschema/included_spec_fields.go:28-39 | after an insertion the nodes are the prefixes of the declared paths, terminal exactly at those |
| `IncludeTree.BuildIncludeTree` | go/oasgen-provider/internal/tools/oas2jsonschema/included_spec_fields.go:42-61 | builds the tree of exactly the declared paths, or refuses the first field that cannot be parsed or has no segments |
| `IncludeTree.OneTree` | go/oasgen-provider/internal/tools/oas2jsonschema/included_spec_fields.go:42-61 | the tree depends only on the set of declared paths |
| `IncludedSpecFields.PrunedPaths` | go/oasgen-provider/internal/tools/oas2jsonschema/included_spec_fields.go:171-200 | a property path survives iff its root is always kept or a declared path is a prefix of it or extends it |
| `IncludedSpecFields.PrunedListPaths` | go/oasgen-provider/internal/tools/oas2jsonschema/included_spec_fields.go:179-196 | the same at any level below no declared path, where only the root keeps fields regardless |
| `IncludedSpecFields.PrunedLevel` | go/oasgen-provider/internal/tools/oas2jsonschema/included_spec_fields.go:171-200 | one level of a pruned schema: the surviving properties in their order, whole below a declared path and pruned in turn otherwise, the required names that still name one in theirs, and nothing else changed |
| `IncludedSpecFields.RetainedNames` | go/oasgen-provider/internal/tools/oas2jsonschema/included_spec_fields.go:204-219 | the required names left are the old ones that still name a property, each as often as before |
| `IncludedSpecFields.PrunedRequires` | go/oasgen-provider/internal/tools/oas2jsonschema/included_spec_fields.go:197-199 | every level that was rewritten requires only properties it still has |
| `IncludedSpecFields.PruningLoosens` | go/oasgen-provider/internal/tools/oas2jsonschema/included_spec_fields.go:171-219 | a document the schema accepted is accepted by the pruned one |
| `RetainSpecFields.FieldExistsAtPath` | go/oasgen-provider/internal/tools/oas2jsonschema/included_spec_fields.go:147-164 | follows the first property of each name |
| `RetainSpecFields.DeclaredFieldsSurvive` | go/oasgen-provider/internal/tools/oas2jsonschema/included_spec_fields.go:107-144 | every declared field that passed validation is still there after pruning |
| `RetainSpecFields.RetainPresent` | go/oasgen-provider/internal/tools/oas2jsonschema/included_spec_fields.go:204-219 | the two loops filter the required list by the names present |
| `RetainSpecFields.PruneToIncluded` | go/oasgen-provider/internal/tools/oas2jsonschema/included_spec_fields.go:171-200 | pruning the objects in place leaves exactly the pruned tree, the include tree unchanged |
| `RetainSpecFields.RetainIncludedSpecFields` | go/oasgen-provider/internal/tools/oas2jsonschema/included_spec_fields.go:107-144 | an empty list changes nothing; the first field that names no path or no property refuses the list with the schema untouched; otherwise the schema is pruned |
| `StatusSchema.AddedFound` | go/oasgen-provider/internal/tools/oas2jsonschema/status_builder.go:191-237 | after an addition the path yields what was there, else the added property, unless a proper prefix is no object |
| `StatusSchema.AddedGrows` | go/oasgen-provider/internal/tools/oas2jsonschema/status_builder.go:191-237 | an addition only grows the schema: nothing is lost, reordered or retyped at any depth |
| `StatusSchema.AddedBeside` | go/oasgen-provider/internal/tools/oas2jsonschema/status_builder.go:191-237 | an addition changes nothing at a path neither above nor below its own |
| `StatusSchema.AddedOnTheWay` | go/oasgen-provider/internal/tools/oas2jsonschema/status_builder.go:204-236 | a level that was missing on the way is a plain object whose one property is the next segment |
| `StatusSchema.BlockedBy` | go/oasgen-provider/internal/tools/oas2jsonschema/status_builder.go:222-228 | an addition bars a path only by its own property, placed at a proper prefix |
| `StatusSchema.BlockedStays` | go/oasgen-provider/internal/tools/oas2jsonschema/status_builder.go:148-237 | a barred path stays barred, and nothing comes to be found there |
| `StatusSchema.FoundNamed` | go/oasgen-provider/internal/tools/oas2jsonschema/status_builder.go:148-178 | what is found at a path bears the name of its last segment |
| `StatusSchema.CompositionComplete` | go/oasgen-provider/internal/tools/oas2jsonschema/status_builder.go:52-107 | over any list of fields, a field is found at the end iff it was there before its turn or not barred then; a missing one is barred by an earlier field; a placed one keeps its type |
| `StatusSchema.StatusTypes` | go/oasgen-provider/internal/tools/oas2jsonschema/status_builder.go:65-103 | a placed field ends with the type of its path in the response, or of its mapping's source; jq and alias mappings and what is not found end as strings |
| `StatusComposition.AddPropertyByPath` | go/oasgen-provider/internal/tools/oas2jsonschema/status_builder.go:191-237 | the in-place addition leaves the objects holding exactly the grown tree, with new objects for the missing levels |
| `StatusComposition.ComposeStatusSchema` | go/oasgen-provider/internal/tools/oas2jsonschema/status_builder.go:52-107 | the loop composes the parseable fields in order, passing over the others, in place |
| `SchemaComparison.Comparison.Compare` | go/oasgen-provider/internal/tools/oas2jsonschema/validator.go:147-264 | reports what the walk function gives, ends on cyclic graphs with the unvisited pairs as measure, and leaves the visited pairs as it found them |
| `SchemaComparison.ByName` | go/oasgen-provider/internal/tools/oas2jsonschema/validator.go:204-207 | of several properties of one name the last one is found |
| `SchemaComparison.ComparisonExact` | go/oasgen-provider/internal/tools/oas2jsonschema/validator.go:147-264 | nothing is reported iff no way from the two schemas leads to a fault, although pairs are forgotten on return |
| `SchemaComparison.ReportedFrom` | go/oasgen-provider/internal/tools/oas2jsonschema/validator.go:156-161 | every report is that of a fault, at the path of a way past no pair still being compared |
| `SchemaComparison.ChainReported` | go/oasgen-provider/internal/tools/oas2jsonschema/validator.go:156-161 | every fault on such a way is reported with its code at its path, through cycles too |
| `SchemaComparison.ReportsExactly` | go/oasgen-provider/internal/tools/oas2jsonschema/validator.go:147-264 | code and path of what is reported are exactly those of the faults on ways without repeated pairs, faults and steps said on the schemas alone: a nil or a differing primary type, properties on one side, items on one side; matched objects, items of matched arrays |
| `SchemaComparison.ReportsSwapped` | go/oasgen-provider/internal/tools/oas2jsonschema/validator.go:147-264 | with unique property names, comparing the other way round reports the same paths with the nil codes exchanged |
| `SchemaComparison.ComparisonSymmetric` | go/oasgen-provider/internal/tools/oas2jsonschema/validator.go:147-264 | with unique property names, comparing either way round reports nothing together |
| `SchemaComparison.RepeatedName` | go/oasgen-provider/internal/tools/oas2jsonschema/validator.go:204-213 | a repeated property name breaks the symmetry |
| `CrdVersions.CustomResourceDefinition.ReplaceVersionSchema` | go/oasgen-provider/internal/tools/crd/apply.go:258-265 | replaces the schema of the first version of that name and nothing else |
| `CrdVersions.CustomResourceDefinition.AppendVersion` | go/oasgen-provider/internal/tools/crd/generation/generation.go:46-109 | a version that is there changes nothing; a new one brings the vacuum with it, after which only the vacuum stores; what becomes of each version is `CrdMerge.MergedAppends` |
| `CrdVersions.CustomResourceDefinition.RemoveStaleVersions` | go/oasgen-provider/internal/tools/crd/generation/generation.go:115-127 | removes exactly the named versions but the vacuum, and says whether there were any |
| `CrdVersions.CustomResourceDefinition.PrunableVersions` | go/oasgen-provider/internal/tools/crd/prune.go:23-36 | lists, in order, the versions that are neither current, nor the vacuum, nor stored |
| `CrdVersions.CustomResourceDefinition.Merge` | go/oasgen-provider/internal/tools/crd/apply.go:185-200 | the closure that merges a generated CRD into the live one computes the merge function, annotations and conversion included; what that leaves is `CrdMerge` |
| `CrdTopology.MergedKeepsVersions` | go/oasgen-provider/internal/tools/crd/apply.go:185-200 | a merge keeps every version's schema but that of the version it is for |
| `CrdTopology.PrunableExactly` | go/oasgen-provider/internal/tools/crd/prune.go:23-36 | a name is prunable iff a version has it and it is neither current, nor the vacuum, nor stored |
| `CrdTopology.RemovedSchemas` | go/oasgen-provider/internal/tools/crd/generation/generation.go:115-127 | a removal takes the named versions but the vacuum, every other keeps its schema |
| `CrdTopology.MergedSound` | go/oasgen-provider/internal/tools/crd/apply.go:187-198 | a merge keeps exactly one storage version, except exactly when the version is there under another group or kind and no vacuum stores |
| `CrdTopology.AppendedSound` | go/oasgen-provider/internal/tools/crd/generation/generation.go:64-105 | appending a new version makes the vacuum the one storage version |
| `CrdTopology.RemovedSound` | go/oasgen-provider/internal/tools/crd/generation/generation.go:115-127 | a removal keeps one storage version unless it removes the only version |
| `CrdMerge.MergedAppends` | go/oasgen-provider/internal/tools/crd/generation/generation.go:46-109 | a merge that appends: live versions, the new one, a vacuum if there was none; every version but the vacuum serves and none stores, the vacuum keeps its flags or is new, unserved and storing; columns only gain the version |
| `CrdMerge.MergedInPlace` | go/oasgen-provider/internal/tools/crd/apply.go:187-189 | a merge in place: name, flags and place of every version stay, one schema changes, columns only gain the version |
| `CrdMerge.MergedElsewhere` | go/oasgen-provider/internal/tools/crd/apply.go:190-197 | a merge onto a version of another group or kind: versions of that name serve and do not store, all else stays |
| `CrdMerge.MergedAround` | go/oasgen-provider/internal/tools/crd/apply.go:185-200 | after any merge group, kind and stored versions are as before, there is no conversion, and of the annotations only the owner's is set |
| `CrdMerge.StampedKeeps` | go/oasgen-provider/internal/tools/crd/apply.go:213-220 | what is created is the generated CRD with its owner and the column |
| `CrdMerge.RemovedSelects` | go/oasgen-provider/internal/tools/crd/generation/generation.go:115-127 | a removal keeps the versions it leaves whole and in order |
| `CrdMerge.PrunableSelects` | go/oasgen-provider/internal/tools/crd/prune.go:23-36 | the prunable names come in the order of the versions |
| `CrdApply.Server.ApplyOrUpdateCRD` | go/oasgen-provider/internal/tools/crd/apply.go:133-211 | succeeds iff there is a version, the reads and the create go through and the attempts pass on what each finds until nobody gets in between; a success directly follows the object it was merged from, or none, and that object was free, its own or found to have lost its owner; it reports whom it displaced iff its last attempt displaced somebody or no earlier one found an owner gone; a refusal wrote nothing unless a failing request took effect |
| `CrdApply.Server.CheckOwner` | go/oasgen-provider/internal/tools/crd/apply.go:168-184 | another owner is displaced iff it is malformed or confirmed gone; alive and undetermined are told apart and refused |
| `CrdApply.Server.PruneServedVersions` | go/oasgen-provider/internal/tools/crd/prune.go:42-70 | succeeds iff nothing is prunable or an attempt that nobody gets in between of goes through; the names it reports are all that was prunable in the object its write directly follows; otherwise it wrote nothing, unless a failing write took effect |
| `CrdProtocol.StepKeepsVersion` | go/oasgen-provider/internal/tools/crd/apply.go:164-202 | in one step a version's schema changes only by an apply naming it, and goes only by a prune whose read, still current, shows it neither current, nor the vacuum, nor stored |
| `CrdProtocol.NoLostVersion` | go/oasgen-provider/internal/tools/crd/apply.go:242-253 | over any interleaving of applies and prunes with conflicts, failures and lost replies, a version gone or changed at the end was so dropped or applied at a step of the run |
| `CrdProtocol.RunFresh` | go/oasgen-provider/internal/tools/crd/apply.go:242-253 | in every run, what a call has read is the object as long as the resource version stands |
| `CrdSuccess.ApplySucceeds` | go/oasgen-provider/internal/tools/crd/apply.go:185-205 | the step with which an apply succeeds writes the generated CRD, merged into what was there or where nothing was |
| `CrdSuccess.PruneSucceeds` | go/oasgen-provider/internal/tools/crd/prune.go:42-70 | when a prune succeeds nothing is left to be pruned |
| `CrdSuccess.RetireSucceeds` | go/oasgen-provider/internal/controllers/restdefinition/prune.go:159-218 | when a retirement succeeds the versions it evaluated are gone |
| `CrdSuccess.AppliesAlone` | go/oasgen-provider/internal/tools/crd/apply.go:133-205 | an apply that nothing interferes with merges and reports whom it displaced, and refuses exactly where the owner is another definition that is there |
| `CrdSuccess.RetiresAlone` | go/oasgen-provider/internal/controllers/restdefinition/prune.go:159-218 | a retirement that nothing interferes with trims and drops all that is neither current nor the vacuum nor kept |
| `CrdSuccess.TrimmedSelects` | go/oasgen-provider/internal/controllers/restdefinition/prune.go:188-200 | trimming keeps the other recorded names in order |
| `CrdOwnership.OneOwner` | go/oasgen-provider/internal/tools/crd/apply.go:133-211 | of the definitions that exist throughout, at most one ever applies successfully, whatever CRD the run starts from, and only the owner if one of them owns it then |
| `CrdOwnership.OwnerStays` | go/oasgen-provider/internal/tools/crd/apply.go:164-185 | the owner annotation never moves off a definition that exists throughout |
| `CrdOwnership.ApplyOwns` | go/oasgen-provider/internal/tools/crd/apply.go:168-185 | no single step of an apply takes the CRD from a definition that stays |
| `CrdOwnership.WellFormedExactly` | go/oasgen-provider/internal/tools/crd/apply.go:97-114 | an owner is well-formed iff it is a namespace, the first slash and something more |
| `CrdOwnership.RecreatedOwnerLoses` | go/oasgen-provider/internal/tools/crd/apply.go:97-114 | from a start with the owner deleted: an owner created again between the check and the write loses the CRD while it exists |
| `CrdOwnership.StaleAdoption` | go/oasgen-provider/internal/tools/crd/apply.go:179-185 | from a start with the owner deleted, two calls of one definition lead to a success that reports an adoption it did not make |
| `CrdStorage.StorageOverRuns` | go/oasgen-provider/internal/controllers/restdefinition/prune.go:188-211 | over any run: exactly one version stores, it is recorded as stored, and storedVersions stays within the versions, between the two writes of a prune too |
| `CrdStorage.RetireStands` | go/oasgen-provider/internal/controllers/restdefinition/prune.go:199-211 | so does each of the two writes when others write in between |
| `ServedVersionPrune.PrunableServedVersions` | go/oasgen-provider/internal/controllers/restdefinition/prune.go:50-75 | lists the versions that are neither the vacuum, nor current, nor referenced, nor carried by an instance; a needed answer that fails is an error |
| `ServedVersionPrune.Cluster.PruneStaleServedVersions` | go/oasgen-provider/internal/controllers/restdefinition/prune.go:159-218 | succeeds iff every needed answer is there and the writes that are needed go through, the first only where a recorded version goes; every state it leaves, with either write failing, is the old one, the trimmed one or the pruned one; success is the pruned one |
| `ServedVersionPrune.StagesContained` | go/oasgen-provider/internal/controllers/restdefinition/prune.go:193-211 | if storedVersions is within the versions at the start, it is in each of these states, and current and vacuum stay |
| `ServedVersionPrune.StagesStand` | go/oasgen-provider/internal/controllers/restdefinition/prune.go:193-211 | if besides one version stores at the start, one does in each of them, and is recorded as stored |
| `ServedVersionPrune.NothingLeft` | go/oasgen-provider/internal/controllers/restdefinition/prune.go:36-76 | evaluating again on an otherwise unchanged cluster yields nothing |
| `ServedVersionPrune.RemovingFirst` | go/oasgen-provider/internal/controllers/restdefinition/prune.go:193-211 | in the other order containment breaks exactly when a retired version is stored |
| `AuthSecretRbac.Cluster.SyncAuthSecretRBAC` | go/oasgen-provider/internal/tools/deploy/authsecretrbac.go:206-234 | succeeds iff no request for a Role or a RoleBinding fails, and then grants exactly the referenced secrets in every referenced namespace, withdraws what was provisioned elsewhere, touches nothing more, and returns the namespaces provisioned |
| `AuthSecretRbac.Cluster.MissingAuthSecretRBAC` | go/oasgen-provider/internal/tools/deploy/authsecretrbac.go:298-322 | a namespace is missing iff its Role or its RoleBinding is absent; a failing read is no answer |
| `AuthSecretRbac.Cluster.DeleteLegacyAuthSecretRBAC` | go/oasgen-provider/internal/tools/deploy/authsecretrbac.go:102-115 | sweeps every namespace it can under the earlier name, never the name in use |
| `AuthSecretRbac.UnionNamespaces` | go/oasgen-provider/internal/controllers/restdefinition/authsecretrbac.go:91-103 | the distinct namespaces of both lists, in order of first appearance |
| `GeneratorBuild.NeverOnRollback` | go/oasgen-provider/internal/controllers/restdefinition/restdefinition.go:195-217 | never for the recorded build, an older or unordered one, nor in both directions |
| `GeneratorBuild.FiresAtMostOnce` | go/oasgen-provider/internal/controllers/restdefinition/restdefinition.go:1241-1256 | for one build the check leads to at most one successful regeneration |
| `GeneratorBuild.FiresExactly` | go/oasgen-provider/internal/controllers/restdefinition/restdefinition.go:195-217 | an upgrade is seen iff regenerating is on, this build is known, and none is recorded or an earlier release is |
| `StatusWrite.Server.PersistStatusWithRetry` | go/oasgen-provider/internal/controllers/restdefinition/restdefinition.go:1924-1940 | a write that succeeds directly follows the status it was built from, so conditions written by others are kept; otherwise the data is untouched, or a failing write took effect in the same way |
| `StatusWrite.ApplyToTwice` | go/oasgen-provider/internal/controllers/restdefinition/restdefinition.go:1897-1906 | applying a snapshot again changes nothing |
| `FixedPoint.ObservedVersionReadsBack` | go/oasgen-provider/internal/controllers/restdefinition/restdefinition.go:327-334 | the version recorded as group/version is the version observed |
| `FixedPoint.NothingToRetire` | go/oasgen-provider/internal/controllers/restdefinition/restdefinition.go:1258-1308 | after regeneration and both prunes nothing is left to retire |
| `FixedPoint.ObserveAfterUpdate` | go/oasgen-provider/internal/controllers/restdefinition/restdefinition.go:417-638 | from any status and cluster, the CRD there or not, after one fully successful update with unchanged inputs none of the six drift branches is taken, whichever evaluations fail; the CRD is reported absent iff it was not generated and lacked the target version |
| `FixedPoint.NoDriftExactly` | go/oasgen-provider/internal/controllers/restdefinition/restdefinition.go:417-638 | no drift is reported iff the CRD is found and the documents, the resource, the generator, the references, the roles and the versions in use are, as far as they can be read, what is recorded; absence iff it is not found |
| `FixedPoint.InputChangesReported` | go/oasgen-provider/internal/controllers/restdefinition/restdefinition.go:536-577 | from such a state a change of the documents, the resource or the generator's release is reported as such and makes an update regenerate, which it would not have otherwise |
| `FixedPoint.UseChangesReported` | go/oasgen-provider/internal/controllers/restdefinition/restdefinition.go:578-638 | so is a change of the references, of the roles and of the versions in use |
| `FixedPoint.VersionsAfterUpdate` | go/oasgen-provider/internal/controllers/restdefinition/restdefinition.go:1258-1308 | after an update a version other than the target and the vacuum is there only if it is in use and recorded as stored, and one that was there with both stays |
| `FixedPoint.ObservedDefault` | go/oasgen-provider/internal/controllers/restdefinition/restdefinition.go:327-334 | nothing recorded, an empty version or two slashes read as the default version |
| `FixedPoint.TargetThere` | go/oasgen-provider/internal/controllers/restdefinition/restdefinition.go:1240-1308 | after an update the target version is there iff it was generated or was there before |
| `FixedPoint.RemovedByHand` | go/oasgen-provider/internal/controllers/restdefinition/restdefinition.go:1240-1268 | with everything recorded current, a target version removed by hand stays absent |
| `FixedPoint.FoundBeforeRecorded` | go/oasgen-provider/internal/controllers/restdefinition/restdefinition.go:427-447 | with nothing recorded, a CRD with the target version is found iff it has the default one too or the documents and the second lookup answer |
| `FixedPoint.Reconciler.Update` | go/oasgen-provider/internal/controllers/restdefinition/restdefinition.go:1199-1353 | succeeds iff the documents are there and, where updating is allowed, the generation, the roles, the deployment and the status write go through; an update without failures takes status, CRD and roles where a fully successful update takes them; one that ends early leaves the persisted status, and in memory what the steps before its end had set; one that is not allowed does nothing |
| `FixedPoint.StaleVersionDrifts` | go/oasgen-provider/internal/controllers/restdefinition/restdefinition.go:1310-1314 | a status left at another version that is still there makes the served one look prunable |
| `Annotations.PatchedGet` | go/rest-dynamic-controller/internal/controllers/async_requeue.go:68-88 | a merge patch sets or removes the keys it names and leaves the others |
| `Annotations.CounterRoundTrip` | go/rest-dynamic-controller/internal/controllers/drift.go:77-81 | a counter that was written reads back |
| `DriftBrake.SignatureInjective` | go/rest-dynamic-controller/internal/controllers/drift.go:52-63 | another generation or another field is another signature |
| `DriftBrake.RecordedRepeats` | go/rest-dynamic-controller/internal/controllers/drift.go:69-94 | a report counts one more for its own difference and starts every other from zero |
| `DriftBrake.ClearedRepeats` | go/rest-dynamic-controller/internal/controllers/drift.go:99-111 | after an agreement every count is zero |
| `DriftBrake.Resource.ObserveComparison` | go/rest-dynamic-controller/internal/controllers/restResources.go:665-760 | the comparison branch of the observe, failing writes included, leaves the annotations and the answer that the comparison function gives |
| `DriftBrake.OneStretch` | go/rest-dynamic-controller/internal/controllers/restResources.go:678-749 | over a stretch of one difference the count grows by the recorded reports, those whose recording seemed to fail included, and at most four answers ask for an update |
| `DriftBrake.AskedExactly` | go/rest-dynamic-controller/internal/controllers/restResources.go:665-760 | an update is asked for iff the difference was recorded, as one of the first four, and shown; each condition iff its branch is taken |
| `DriftBrake.UpdatesExactly` | go/rest-dynamic-controller/internal/controllers/restResources.go:665-749 | when no write fails, the reports of one difference ask for an update each until the count stands at four, and never after |
| `DriftBrake.BrakeHolds` | go/rest-dynamic-controller/internal/controllers/restResources.go:684-723 | once engaged, none does until the comparison agrees or differs elsewhere |
| `DriftBrake.UpdatesBounded` | go/rest-dynamic-controller/internal/controllers/restResources.go:665-754 | over any run at most four updates are asked for per stretch |
| `Dispatch.FindCorrelatedItem` | go/rest-dynamic-controller/internal/controllers/dispatch.go:106-132 | found iff exactly one item echoes the token, missing iff none does, otherwise ambiguous with the number of matches |
| `Dispatch.AbsentExactly` | go/rest-dynamic-controller/internal/controllers/dispatch.go:141-301 | absence is answered iff the token is set, no item of a readable collection echoes it, and it was never fired for |
| `Dispatch.ObservedExactly` | go/rest-dynamic-controller/internal/controllers/dispatch.go:160-301 | by how many items echo the token: one is available and held with the misses cleared, several are an error, none is a miss counted and held if it was fired for; each answer and condition as an iff |
| `Dispatch.NothingObserved` | go/rest-dynamic-controller/internal/controllers/dispatch.go:141-175 | without a token that is what is reported, and a failing read decides nothing |
| `Dispatch.RecordKept` | go/rest-dynamic-controller/internal/controllers/dispatch.go:232-283 | observing counts and clears misses without touching the record of what was fired |
| `Dispatch.WaitsThenReports` | go/rest-dynamic-controller/internal/controllers/dispatch.go:232-267 | a fired token that never shows up is held and counted, reported from the fifth miss on, and never fired again |
| `Dispatch.Resource.ObserveDispatch` | go/rest-dynamic-controller/internal/controllers/dispatch.go:141-301 | the observe, failing writes included, leaves the annotations, condition and answer that the observe function gives |
| `Dispatch.Resource.CreateDispatch` | go/rest-dynamic-controller/internal/controllers/dispatch.go:310-358 | fires only with a token and records it only after the call succeeded |
| `Dispatch.AtMostOnce` | go/rest-dynamic-controller/internal/controllers/dispatch.go:216-271 | over any run in which a create follows its own observe, the successful calls for a token number at most one plus the failed and the overwritten records of it |
| `Dispatch.CreateAgain` | go/rest-dynamic-controller/internal/controllers/dispatch.go:310-358 | a create run again without an observe fires twice |
| `AsyncRequeue.Resource.RecordAsyncOperation` | go/rest-dynamic-controller/internal/controllers/async_requeue.go:93-116 | records handle, action and inputs together, or changes nothing: the step of a run that follows a trigger |
| `AsyncRequeue.Resource.ClearAsyncOperation` | go/rest-dynamic-controller/internal/controllers/async_requeue.go:120-133 | removes the three keys together, or changes nothing |
| `AsyncRequeue.RecordThenClear` | go/rest-dynamic-controller/internal/controllers/async_requeue.go:90-133 | clearing undoes recording, other annotations untouched |
| `AsyncRequeue.Resource.DriveAsyncRequeue` | go/rest-dynamic-controller/internal/controllers/async_requeue.go:208-290 | one poll shows a failure as Unavailable and drops the handle once a failure is shown or a success read, and otherwise leaves both; that is where the corresponding steps of a run leave them, whatever fails or takes effect on failing, and no other annotation changed; the handle of a verb that is not polled any more is dropped |
| `AsyncRuns.TriggersConserved` | go/rest-dynamic-controller/internal/controllers/async_requeue.go:93-133 | over any run, triggers never exceed one plus the observed outcomes plus the handles lost after a trigger |
| `AsyncRuns.HandleKept` | go/rest-dynamic-controller/internal/controllers/async_requeue.go:208-290 | over any run in which no poll reports an outcome, a recorded handle stays and nothing is triggered or lost |
| `AsyncRuns.CountsExactly` | go/rest-dynamic-controller/internal/controllers/async_requeue.go:93-133 | what a trigger, an outcome and a lost handle are, and when a handle comes and goes |
| `AsyncRuns.AskedExactly` | go/rest-dynamic-controller/internal/controllers/restResources.go:349-389 | a verb is asked for iff nothing is polled and the resource is found missing or different, or cannot be seen and its condition says so |
| `AsyncRuns.ReadyExactly` | go/rest-dynamic-controller/internal/controllers/async_requeue.go:240-290 | which step may replace the condition by which |
| `AsyncRuns.NextOrdered` | go/rest-dynamic-controller/internal/controllers/async_requeue.go:248-284 | no step removes a failed operation's handle before Unavailable is persisted |
| `AsyncRuns.FailureLeavesPending` | go/rest-dynamic-controller/internal/controllers/restResources.go:349-365 | at every point of every run, a failed operation without a handle is Pending only because a later call waits for a referent |
| `AsyncRuns.StuckExactly` | go/rest-dynamic-controller/internal/controllers/async_requeue.go:248-252 | that state is reachable iff some verb is polled by requeueing and some verb has a lookup that may wait, an update counting only if the resource can be seen |
| `AsyncRuns.MissingRetried` | go/rest-dynamic-controller/internal/controllers/restResources.go:349-389 | while the resource is missing, a verb is called again after a wait for a referent iff there is neither a get nor a findby verb and an observe runs; otherwise the resource is held as it is |
| `AsyncRuns.RetriedExactly` | go/rest-dynamic-controller/internal/controllers/restResources.go:349-389 | the next step calls a verb again iff it finds the resource different or cannot see it |
| `DeleteArbiter.ReleasedOnlyVerified` | go/rest-dynamic-controller/internal/controllers/mutate_restaction.go:94-136 | on a kind that can be deleted and checked, the finalizer is released iff everything before the get went through and the get answers 404 or a body that a declared predicate calls a tombstone |
| `DeleteArbiter.VerifiedExactly` | go/rest-dynamic-controller/internal/controllers/mutate_restaction.go:94-136 | for any definition: released as verified absent iff the requests before the get went through, it could be asked, and it says gone, a failed delete call included |
| `DeleteArbiter.SeenHeld` | go/rest-dynamic-controller/internal/controllers/mutate_restaction.go:116-128 | a get that fails, or a body that no predicate calls gone, holds the finalizer whatever the delete call said |
| `DeleteArbiter.UnverifiedExactly` | go/rest-dynamic-controller/internal/controllers/restResources.go:1462-1699 | every other release, each with the exact condition under which it happens |
| `DeleteArbiter.FailureDecidesNothing` | go/rest-dynamic-controller/internal/controllers/restResources.go:1631-1684 | a failed delete is released only when the get says that the resource is gone |
| `DeleteArbiter.NoOrphan` | go/rest-dynamic-controller/internal/controllers/restResources.go:1023-1030 | over any run with synchronous creates in which a get says gone only of what is absent, the external resource there at the start or not, in every state after the release it is absent |
| `DeleteArbiter.LateCreateOrphans` | go/rest-dynamic-controller/internal/controllers/mutate_restaction.go:152-227 | a create the vendor finishes later appears after the release |
| `DeleteArbiter.UnaddressableOrphans` | go/rest-dynamic-controller/internal/controllers/restResources.go:1601-1611 | a resource whose delete path cannot be addressed is released while it exists |
| `LookupRunner.NeededLookupNames` | go/rest-dynamic-controller/internal/controllers/lookup_runner.go:93-132 | with unique names and earlier-only references one reverse pass yields, in declaration order, exactly the declared lookups reachable from an unguarded resolver |
| `LookupRunner.InOrderSelects` | go/rest-dynamic-controller/internal/controllers/lookup_runner.go:124-132 | the names come in the order of declaration |
| `LookupRunner.ReachedStep` | go/rest-dynamic-controller/internal/controllers/lookup_runner.go:114-123 | one turn of the pass closes the set over one more lookup |
| `LookupRunner.BindLookupParameters` | go/rest-dynamic-controller/internal/controllers/lookup_runner.go:189-237 | binds each parameter to the earlier lookup's answer or the field's value; fails at the first one without, as unresolved only for a lookup it reads |
| `LookupRunner.RunDependentLookups` | go/rest-dynamic-controller/internal/controllers/lookup_runner.go:54-85 | succeeds iff every guard can be read and each needed lookup answers and has its fields; the forward run never meets an unresolved lookup, and returns the answers of exactly the needed ones |
| `LookupRunner.LaterReferenceUnresolved` | go/rest-dynamic-controller/internal/controllers/lookup_runner.go:201-208 | a reference to a later lookup is needed and yet unresolved when read |
| `SpecProjection.NormalizedIsNormal` | go/rest-dynamic-controller/internal/tools/deepcopy/deepcopy.go:10-59 | the copy leaves only JSON values with 64-bit integers and changes nothing the second time |
| `SpecProjection.NormalizedCopies` | go/rest-dynamic-controller/internal/tools/deepcopy/deepcopy.go:10-59 | the copy is the one value with the same fields and elements in which every integer is itself, a float within the bounds what is left of it toward zero, and anything else its text |
| `SpecProjection.NormalizedField` | go/rest-dynamic-controller/internal/tools/deepcopy/deepcopy.go:10-59 | reading a field of the copy is copying the field |
| `SpecProjection.AddedKeeps` | go/rest-dynamic-controller/internal/controllers/helpers.go:87-89 | a field projected before reads the same after another is set, however the two overlap |
| `SpecProjection.CopyFits` | go/rest-dynamic-controller/internal/controllers/helpers.go:87-89 | setting a field of the spec in a part of it never fails |
| `SpecProjection.ProjectSpecFields` | go/rest-dynamic-controller/internal/controllers/helpers.go:76-92 | for any list of paths the projection succeeds, reads back every listed and present path normalized, is part of the normalized spec, and holds nothing that no listed path leads to or through |
| `SpecProjection.ProjectionAgrees` | go/rest-dynamic-controller/internal/controllers/helpers.go:76-92 | field by field: listed and present ones read back, every leaf is one of the normalized spec |

## Left out

- The recursion guard's depth, node and time limits: theorems speak of walks that are not cut short.
- `nullable`, `additionalProperties`, numeric and string bounds: the flattening does not merge them, and acceptance does
  not read them.
- Descriptions, defaults, formats and messages of schemas and reports; of a report the path and the code are kept.
- Sharing of a Go slice's backing array: type lists are values, which is the same as long as no list is rewritten after
  it was inherited, and lists are rewritten only when their schema is entered.
- `StatusComposition.ComposeStatusSchema`: takes the property each field resolves to, already copied, as its input, because
  `Schema.deepCopy` is not part of this model; what a field resolves to is `StatusSchema.StatusTypes`. An alias mapping
  whose source has no schema, which the code does not expect, is not modelled.
- Two spellings of one number in an enum, such as 1 and 1.0, are one value here; the code keeps both.
- Path parsing: a path is a sequence of segments, or could not be parsed.
- The YAML rendering of schemas, the spec, configuration and identifier builders, and the OpenAPI parsers.
- The CRD's printer columns beyond the version column, names, labels and every annotation's meaning but the owner's.
- The API server is reduced to atomic reads, compare-and-swap writes, status writes and merge patches, each of which may
  fail, a failing write with or without taking effect. That it records a storage version in storedVersions when it
  persists a spec is assumed; its own validation is not, so the storage theorems do not rest on it.
- Deletion of the shared CRD, and writers other than the modelled calls.
- `CrdStorage.StorageOverRuns`: the prune of served versions is assumed to start while its current version, or the
  vacuum, is there, as its only caller does after an apply.
- Whether another definition references a version is an input: the comparison in `prune.go:138` is between a bare version
  and a status value that carries the group, so nothing is claimed about versions that other definitions serve.
- `crd.PruneServedVersions` ignores live instances; that a version with instances is kept holds for
  `pruneStaleServedVersions` alone.
- HTTP, jq, request building, snowplow and pagination: their outcomes are inputs.
- Reading semantic versions: `GeneratorBuild` takes the parser as a parameter.
- Hashes are injective. Digests of rendered manifests, Deployment lookups and restarts are not modelled.
- The order in which namespaces are provisioned and listed: the code sorts them, the model returns them once each.
- `SpecProjection.NormalizedIsNormal`: a nil list of objects of the typed kind, which the code returns as it is, is not
  modelled.
- Counters are unbounded; the code's are 64 bits wide.
- A float of exactly 2^63, whose conversion the platform defines, is taken to become the smallest 64-bit integer.
- `MergedGraph.NamesUnited`: asks that no part leads back to the schema; on cycles of parts `MergedGraph.GraphMerged` says
  what the merge is of, but not from the input alone which parts had been merged by then.
- The order and the number of equal reports of a comparison: which reports there are is exact.
- `Dispatch.AtMostOnce`: assumes that a create acts on the object its observe answered for and that nobody else writes
  the two annotations.
- The status a RESTAction reports (`mutateViaRestAction`) and the population of status fields from responses.
- Events, audit records, logs, telemetry, label backfill, admission policies and secretRef roles.
