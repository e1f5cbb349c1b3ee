# Models of the KubeSphere Schedule service

KubeSphere Schedule analyses the resource use of workloads in a Kubernetes cluster. Most of the
repository moves objects between API servers; this project models the parts that compute something,
and proves what they are for.

* **Structural comparison** (`pkg/utils/reflectutils/deep.go`). `DeepValues` holds the rules for one
  layer of two Go values; `DeepDiff` the class `Cmp` with its path stack and difference list, its
  methods proved against a specification of the capped, depth-limited run; `DeepCap` relates that run
  to the full list of differences; `DeepEquality` says what an empty list means and that it is an
  equivalence; `DeepPaths` that every entry is true of both values and that the same-pointer shortcuts
  change nothing; `DeepTexts` fixes what every entry shows and its level by what is found at its place;
  `DeepComplete` proves that no difference the comparer looks at is left unnamed or named twice,
  `DeepSequence` in which order they come, and `DeepOrder` that map iteration order does not decide the outcome; `DeepGraph` repeats the run over addresses that may form cycles.
* **Listing** (`pkg/service/resources/v1alpha3/interface.go`, `pkg/apiserver/query/types.go`).
  `Query` parses and bounds a page with 64-bit wrap-around, `ListPipeline` filters, sorts, cuts and
  transforms, `Sorting` is the in-place sort driven by a comparison, `ObjectMeta` the default
  comparator and filter, `Labels` the label-filter language, and `PageWalk` the guarantee over many
  independent requests.
* **Request paths** (`pkg/apiserver/request/requestinfo.go`). `RequestInfo` is the parser, as methods
  proved equal to a function, with its invariants; `RequestPaths` renders paths and reads them back.
* **Analysis controller** (`pkg/controller/schedule/analysis/analysis_controller.go`). `Analysis` is a
  system of atomic steps with its safety theorem over all runs; `AnalysisController` has the code's own
  loops as methods that take those steps while everybody else may run in between.
* **Smaller cores**: `Utf8Reverse` (`Reverse`, against RFC 3629, sections 3 and 4),
  `ConditionsParser` (`parseConditions`), `InformerFactory` (the shared informer factory) and
  `SliceRemoval` (`RemoveString`). `Text` and `Common` hold what they share.

## Where the code differs from what one might expect

* The cap of `Equal` is not a pure truncation. With `MaxDiff` below 1 the loops still try one child, so
  that a later difference is missed and `Equal` answers "no differences"
  (`DeepCap.EmptyResultIsTrustedIff`).
* A map with a NaN key is different from itself by its contents, but `Equal` answers "no differences"
  because of the same-pointer shortcut (`DeepPaths.NilTrustedIff`).
* `NoPagination` is not "everything": it is a first page of ten (`pkg/apiserver/query/types.go:72-82`).
  With `limit=-1` every page is that page, so that walking the pages never ends; with `limit=0`, which
  is accepted too, the first page is empty and the walk finds nothing. A walk finds everything exactly
  when the limit is positive or nothing matches (`PageWalk.WalkFindsAllIff`).
* The indices of `GetValidPagination` are not always valid: its end wraps for a large limit, and
  slicing then fails (`Query.PaginationInBoundsIff`).
* A path of a groupless prefix, `clusters`, a cluster and a version makes the request parser index an
  empty slice (`RequestInfo.PanicsIff`).
* An empty label filter asks for a label with the empty key (`Labels.EmptyFilter`). A key with `=` in it
  is cut there, and a key ending in `!` before `=` is read as the opposite test; every other term is
  read as it was printed (`Labels.ParsePrintIff`).
* `Reverse` indexes out of range on some strings that are not valid UTF-8
  (`Utf8Reverse.Reverse`, `Utf8Reverse.BrokenEarly`).

## Modelling choices

* A Go value is a tree whose nodes carry their type, an identity and a body; map keys are listed in the
  order one run visits them. `Error()`, a user-defined `Equal` and the rounded form of a float are
  parameters (`DeepValues.Env`), and results that need it ask for `Equal` to be an equivalence or at
  least reflexive.
* A field counts as visible when it is exported or `CompareUnexportedFields` is set, so that both
  settings are covered.
* A difference is kept as a path and two shown texts instead of one formatted string.
* `GetValidPagination` may give indices that `DefaultList` cannot slice with; `None` stands for that
  run-time error. `None` also stands for Go's nil result and for error results.
* Map iteration picks any key that is left, so that every result holds for every iteration order.
* `sort.Slice` is an insertion sort whose contract is all that callers see: a permutation, and sorted
  when the comparison decides every pair of different elements.
* One step of the analysis controller is one access to shared state: delivering an event and reading
  the cache, writing a cache entry, a List answer, one request. A request is recorded together with the
  deployment it is for, so that a deployment created again under an old name is not taken for the old
  one.
* `WaitForCacheSync` gives up its lock after taking a snapshot; other calls may come in while it waits.

## Model

| member | source | states |
|---|---|---|
| DeepDiff.Cmp.Push | pkg/utils/reflectutils/deep.go:369-371 | the step is put on top of the path stack, and nothing else changes |
| DeepDiff.Cmp.Pop | pkg/utils/reflectutils/deep.go:373-377 | the top step is removed, and an empty stack is left alone |
| DeepDiff.Cmp.SaveDiff | pkg/utils/reflectutils/deep.go:379-386 | one entry is appended, for the path now on the stack |
| DeepDiff.Cmp.Equals | pkg/utils/reflectutils/deep.go:105-367 | on every exit the path stack is what it was, and the list has grown by exactly the capped, depth-limited run of the pair |
| DeepDiff.Cmp.Switch | pkg/utils/reflectutils/deep.go:153-366 | the same for the dereference and every kind, early returns included |
| DeepDiff.Cmp.Primitive | pkg/utils/reflectutils/deep.go:339-366 | at most one entry, exactly when the primitive values differ; unhandled kinds record nothing |
| DeepDiff.Cmp.FieldLoop | pkg/utils/reflectutils/deep.go:205-229 | the loop over visible, not ignored fields stops at the cap after a field and restores the stack |
| DeepDiff.Cmp.KeyLoop | pkg/utils/reflectutils/deep.go:259-275 | the loop over the keys of the left map, and whether the cap ended it |
| DeepDiff.Cmp.KeySlot | pkg/utils/reflectutils/deep.go:262-268 | a key of the left map is compared, or recorded as missing on the right |
| DeepDiff.Cmp.ExtraLoop | pkg/utils/reflectutils/deep.go:277-288 | keys only the right map has are recorded one by one up to the cap |
| DeepDiff.Cmp.ArrayLoop | pkg/utils/reflectutils/deep.go:289-298 | the array loop stops at the cap after an element and restores the stack |
| DeepDiff.Cmp.SliceLoop | pkg/utils/reflectutils/deep.go:316-333 | the slice loop over the longer length stops at the cap and restores the stack |
| DeepDiff.Cmp.Slot | pkg/utils/reflectutils/deep.go:322-328 | an index is compared, or recorded as missing on the shorter side |
| DeepDiff.Turn | pkg/utils/reflectutils/deep.go:226-228 | one turn of any of the loops: the entries of the first child, then either the end at the cap or the rest with the room that is left |
| DeepDiff.AllItemsOK | pkg/utils/reflectutils/deep.go:205-333 | every compared child is what its step leads to in both values, and a one-sided child is missing on the other side |
| DeepCap.LevelsGrow | pkg/utils/reflectutils/deep.go:105-109 | a call entered at a level records nothing at a smaller level, so that stopping at the depth limit loses only what lies deeper |
| DeepCap.RunIsPrefix | pkg/utils/reflectutils/deep.go:105-367 | with room for at least one entry, the run is exactly the first entries of the full difference list restricted to the levels the depth limit lets through: nothing reordered, skipped or too many |
| DeepCap.RunItemsIsPrefix | pkg/utils/reflectutils/deep.go:226-228 | the same for a loop with its early exit |
| DeepCap.EmptyResultIsTrustedIff | pkg/utils/reflectutils/deep.go:226-228 | an empty result means "no differences within the depth" for every pair if and only if MaxDiff is at least 1 |
| DeepCap.NoRoomMissesDifferences | pkg/utils/reflectutils/deep.go:330-332 | with MaxDiff below 1 two slices of different length give an empty result |
| DeepCap.Equal | pkg/utils/reflectutils/deep.go:79-103 | with MaxDiff at least 1, nil means that there is nothing to report, and otherwise the result is the first MaxDiff reportable differences; a single nil argument gives one entry, with the other argument and the note "<nil pointer>" each on its side, whatever MaxDiff is |
| DeepEquality.SameIsAllSame | pkg/utils/reflectutils/deep.go:205-333 | two structs, maps, arrays or slices are the same by the plain rules exactly when every child the loops visit is the same on both sides |
| DeepEquality.NoDiffsIffSame | pkg/utils/reflectutils/deep.go:105-367 | the full difference list is empty exactly when the values are the same under the stated rules |
| DeepEquality.ReorderedSame | pkg/utils/reflectutils/deep.go:259-288 | listing the keys of maps in another order gives the same value |
| DeepEquality.SameNoNaN | pkg/utils/reflectutils/deep.go:259-275 | a value with a NaN key that is looked at is the same as no value |
| DeepEquality.SameReflexiveIff | pkg/utils/reflectutils/deep.go:105-367 | a value is the same as itself exactly when no map that is looked into has a NaN key |
| DeepEquality.SameSymmetric | pkg/utils/reflectutils/deep.go:105-367 | being the same is symmetric |
| DeepEquality.SameTransitive | pkg/utils/reflectutils/deep.go:105-367 | being the same is transitive |
| DeepEquality.MapOrderIrrelevant | pkg/utils/reflectutils/deep.go:259-288 | whether two values are the same does not depend on the key orders of either |
| DeepPaths.DiffsGenuine | pkg/utils/reflectutils/deep.go:205-386 | following the path of any entry in both values leads to what really differs, or is there on one side only, exactly when no step is a NaN key; the left text is about the left value and the right text about the right one |
| DeepPaths.AnswerGenuine | pkg/utils/reflectutils/deep.go:79-103 | the same for every entry that Equal returns |
| DeepTexts.DiffsExplained | pkg/utils/reflectutils/deep.go:105-386 | every entry shows what is found at its place: two types, two error texts, two values told apart as a whole, or a value and the note for a nil pointer, map or slice, a missing key or a missing index, each on the side it is about; and its level is the steps of its path plus the pointers passed on the way |
| DeepTexts.ReportShows | pkg/utils/reflectutils/deep.go:111-366 | what is shown for a pair that is reported as a whole, case by case |
| DeepTexts.LoneExplained | pkg/utils/reflectutils/deep.go:263-328 | what is shown for a key or index that one side lacks |
| DeepTexts.KeptMeaning | pkg/utils/reflectutils/deep.go:105-109 | the depth limit lets an entry through exactly when its level is not above it |
| DeepTexts.AnswerExplained | pkg/utils/reflectutils/deep.go:79-103 | the same for every entry that Equal returns, whose level the depth limit allows |
| DeepSequence.DiffsInOrder | pkg/utils/reflectutils/deep.go:205-333 | the entries come in the order of fields, elements and indices, and for maps by the left key order and then by the right one |
| DeepSequence.AnswerInOrder | pkg/utils/reflectutils/deep.go:79-103 | the same for what Equal returns, at any cap and depth limit |
| DeepPaths.ShortcutsChangeNothing | pkg/utils/reflectutils/deep.go:255-257 | for values of one memory the same-pointer returns for maps and slices give the difference list that comparing the contents gives |
| DeepPaths.NilAnswerIffSame | pkg/utils/reflectutils/deep.go:79-103 | without a depth limit and with a cap of at least 1, Equal answers nil exactly when the values are the same |
| DeepPaths.SelfAnswersNil | pkg/utils/reflectutils/deep.go:255-257 | a value compared with itself never has a difference, NaN keys or not |
| DeepPaths.NilTrustedIff | pkg/utils/reflectutils/deep.go:255-275 | nil means the same for a value against everything in its memory if and only if no map looked into below it has a NaN key |
| DeepPaths.NilAnswerAcrossRuns | pkg/utils/reflectutils/deep.go:79-103 | without NaN keys, whether Equal answers nil depends neither on map orders nor on the addresses of maps and slices |
| DeepOrder.NilAnswerIgnoresMapOrder | pkg/utils/reflectutils/deep.go:79-103 | whether Equal answers nil does not depend on the orders in which map keys are listed, NaN keys or not, whatever Equal methods do |
| DeepOrder.SameVisits | pkg/utils/reflectutils/deep.go:259-288 | whatever the key orders, the loops visit the same children |
| DeepComplete.ChildVisited | pkg/utils/reflectutils/deep.go:205-333 | a child that is there on either side, and is not a skipped field, is visited |
| DeepComplete.ChildrenComplete | pkg/utils/reflectutils/deep.go:205-333 | every visited child that one side lacks, NaN keys included, or that is not the same on both sides, has an entry whose path goes through it |
| DeepComplete.Complete | pkg/utils/reflectutils/deep.go:105-367 | wherever the comparer looks, a place where the values differ is named by an entry of the full list at that place or below it |
| DeepComplete.DistinctDiffs | pkg/utils/reflectutils/deep.go:205-386 | no two entries of the full list have the same path, unless it goes through a NaN key |
| DeepComplete.ShortAnswerComplete | pkg/utils/reflectutils/deep.go:79-103 | a result shorter than MaxDiff names every differing place the comparer looks at |
| DeepComplete.AnswerOncePerPlace | pkg/utils/reflectutils/deep.go:79-103 | no two entries of a result are for the same place, at any cap and depth limit |
| DeepGraph.GraphRunIsTreeRun | pkg/utils/reflectutils/deep.go:105-109 | with MaxDepth at least 1 the run over a possibly cyclic graph, whose recursion is bounded by the levels left, equals the run over the finite unfolding |
| DeepGraph.GraphRunIsPrefix | pkg/utils/reflectutils/deep.go:79-103 | on cyclic values too the result is the beginning of a full difference list |
| DeepGraph.GraphShortcutsChangeNothing | pkg/utils/reflectutils/deep.go:312-314 | on any coherent graph without NaN keys, cyclic or not, the same-pointer shortcuts change no difference |
| DeepGraph.SelfQuiet | pkg/utils/reflectutils/deep.go:255-257 | comparing the contents of an address with themselves records nothing |
| Query.NewPagination | pkg/apiserver/query/types.go:75-86 | neither the limit nor the offset of a built page is negative; a valid one is kept, a negative limit becomes ten and a negative offset zero |
| Query.PaginationInBoundsIff | pkg/apiserver/query/types.go:96-110 | the two indices can cut a slice if and only if the end does not wrap or the page is rejected |
| Query.ParsedPaginationInBounds | pkg/apiserver/query/types.go:75-110 | every built page is safe when limit plus total fits an int, even if the offset wrapped |
| Query.ParseQueryParameter | pkg/apiserver/query/types.go:126-182 | page, sort field, direction, label selector and filters of the parsed query, said about the texts of the parameters, with every default and error case |
| Query.ParsePagination | pkg/apiserver/query/types.go:133-152 | the page of the parsed query, said about the texts of the limit, page and start parameters |
| Query.PaginationMeaning | pkg/apiserver/query/types.go:133-152 | a limit that is missing, unreadable or negative gives ten; an unreadable page is page 1 and a page below 1 starts at 0; without a page a start that is not negative is the offset and a missing one is 0; a negative start discards the limit too |
| Query.FiltersMeaning | pkg/apiserver/query/types.go:165-179 | key by key, the filters are the parameters that are given and not one of the six reserved names, each with its last value |
| Query.LoadFilters | pkg/apiserver/query/types.go:165-179 | whatever the map order, each key that is not reserved becomes a filter with its last value |
| Query.PageOffset | pkg/apiserver/query/types.go:148-152 | page p starts where the p - 1 pages before it end, if and only if that offset fits an int |
| Sorting.SortSlice | pkg/service/resources/v1alpha3/interface.go:116-124 | the slice becomes a permutation of itself, sorted whenever the comparison decides different elements transitively |
| Sorting.Sink | pkg/service/resources/v1alpha3/interface.go:116-124 | one more element is carried to its place among the sorted ones, asking only about distinct positions |
| Sorting.SortedUnique | pkg/service/resources/v1alpha3/interface.go:116-124 | a sorted order is determined by the multiset of elements |
| Sorting.SortExists | pkg/service/resources/v1alpha3/interface.go:116-124 | elements that the comparison decides can be sorted, so that every listing has an order |
| Sorting.SortedReversed | pkg/service/resources/v1alpha3/interface.go:118-123 | sorting by the negated comparison gives the exact reverse |
| ListPipeline.MatchingCount | pkg/service/resources/v1alpha3/interface.go:100-114 | an object is selected as often as it was given if it is not nil and meets every filter, and otherwise not at all |
| ListPipeline.SelectObject | pkg/service/resources/v1alpha3/interface.go:104-110 | in any map order, an object is selected exactly when every filter accepts it |
| ListPipeline.FilterObjects | pkg/service/resources/v1alpha3/interface.go:100-114 | nil objects are dropped and the selected ones keep their order |
| ListPipeline.SortObjects | pkg/service/resources/v1alpha3/interface.go:117-124 | the selected objects are sorted in the direction asked for |
| ListPipeline.NilFilter | pkg/service/resources/v1alpha3/interface.go:310-318 | the transforms that are not nil, in order |
| ListPipeline.TransformObject | pkg/service/resources/v1alpha3/interface.go:140-149 | the transforms are chained, an object result being passed on and anything else leaving the object as it was |
| ListPipeline.ChainMeaning | pkg/service/resources/v1alpha3/interface.go:140-149 | the outcome is what the last transform makes of what came through the others, each getting the object the one before it gave |
| ListPipeline.TransformPage | pkg/service/resources/v1alpha3/interface.go:134-149 | one result per object of the page, in order, with the identity when there is no transform |
| ListPipeline.DefaultList | pkg/service/resources/v1alpha3/interface.go:96-152 | the answer is the page of one sorted order of all matching objects, transformed, with the total; a query without pagination is given the default one |
| ObjectMeta.CompareDecides | pkg/service/resources/v1alpha3/interface.go:197-218 | the comparator decides two objects one way exactly when their sort keys differ |
| ObjectMeta.CompareTransitive | pkg/service/resources/v1alpha3/interface.go:197-218 | the comparator is transitive |
| ObjectMeta.DefaultOrdersIff | pkg/service/resources/v1alpha3/interface.go:116-124 | in both directions the comparison orders the objects strictly and totally if and only if no two share a sort key |
| ObjectMeta.AscendingIsReverse | pkg/service/resources/v1alpha3/interface.go:118-123 | the ascending listing is the exact reverse of the descending one |
| ObjectMeta.DirectionMeaning | pkg/service/resources/v1alpha3/interface.go:116-124 | descending is newest first with ties by name from the end of the dictionary, "name" is by name from the end, "!name" from the start, and ascending turns each of these around |
| Text.LessMeaning | pkg/service/resources/v1alpha3/interface.go:202-214 | a name comes first exactly when it is a proper prefix or has the smaller character at the first difference |
| ObjectMeta.NamesFilter | pkg/service/resources/v1alpha3/interface.go:223-229 | "names" with a list of names selects the objects that have one of them |
| ObjectMeta.NameFilter | pkg/service/resources/v1alpha3/interface.go:231-232 | "name" selects the objects whose name has the text somewhere in it |
| ObjectMeta.LabelFilters | pkg/service/resources/v1alpha3/interface.go:256-260 | "label" and "annotation" with a printed list of terms select by the conjunction of their meanings |
| ObjectMeta.PlainFilters | pkg/service/resources/v1alpha3/interface.go:234-264 | the other fields compare one value or that of some owner, and an unknown field accepts everything |
| ObjectMeta.DefaultObjectMetaFilter | pkg/service/resources/v1alpha3/interface.go:221-265 | each filter field means what its name says: one of the names, part of the name, an owner, a label match, and unknown fields accept everything |
| Labels.LabelMatch | pkg/service/resources/v1alpha3/interface.go:281-308 | in any map order the term holds exactly when its meaning as a map lookup does |
| Labels.LabelsMatch | pkg/service/resources/v1alpha3/interface.go:269-279 | the filter holds exactly when every comma-separated, trimmed term does |
| Labels.ParsePrintIff | pkg/service/resources/v1alpha3/interface.go:281-295 | reading a printed term gives the term back if and only if its key has no "=" and, under "=", does not end in "!" |
| Labels.LabelFilterMeaning | pkg/service/resources/v1alpha3/interface.go:269-308 | a printed list of padded terms selects exactly the label maps that satisfy the conjunction of their meanings |
| Labels.PrintParse | pkg/service/resources/v1alpha3/interface.go:281-295 | every text is the printed form of the term it is read as |
| Labels.EmptyFilter | pkg/service/resources/v1alpha3/interface.go:269-279 | the empty filter holds exactly for maps with the empty key |
| Labels.BangReadsAsOpposite | pkg/service/resources/v1alpha3/interface.go:285-291 | a key ending in "!" under "=" is always read as the opposite test of the shorter key |
| PageWalk.SameObjectsMatch | pkg/service/resources/v1alpha3/interface.go:100-114 | collections equal up to order and nils select the same objects |
| PageWalk.OrderDetermined | pkg/service/resources/v1alpha3/interface.go:96-132 | with decided sort keys the sorted order does not depend on how the objects arrive or on the page |
| PageWalk.ListingDetermined | pkg/service/resources/v1alpha3/interface.go:96-152 | two listings of one collection with the same query have the same answer |
| PageWalk.NilsChangeNothing | pkg/service/schedule/interface.go:209-214 | the nils that ListAnalysisTask puts before its tasks change no possible answer |
| PageWalk.PageRequest | pkg/apiserver/query/types.go:133-152 | the page a request with page and limit parameters asks for is the p-th page of the walk |
| PageWalk.UnsortedPage | pkg/service/resources/v1alpha3/interface.go:116-151 | without a comparator a page is cut out of the matching objects as they came |
| PageWalk.PageContents | pkg/apiserver/query/types.go:96-110 | one page holds the objects from (p - 1) * limit up to p * limit of the order, and nothing past the end |
| PageWalk.PagesSoFar | pkg/service/resources/v1alpha3/interface.go:132-151 | the first pages together are a prefix of the order, and the first empty page comes exactly when the order is exhausted |
| PageWalk.WalkCompletes | pkg/service/resources/v1alpha3/interface.go:96-152 | pages 1, 2, ... until the first empty one, each answered from the objects in any order, concatenate to all matching objects exactly once in sort order |
| PageWalk.DefaultWalkCompletes | pkg/service/resources/v1alpha3/interface.go:96-152 | the same with the default comparator and pairwise distinct sort keys, as the objects themselves, in the direction asked for |
| PageWalk.WalkFindsAllIff | pkg/apiserver/query/types.go:133-152 | for every limit a parsed query can hold, and as long as limit plus the number of matching objects fits an int, there is a walk that finds every matching object exactly once in order if and only if the limit is positive or nothing matches |
| PageWalk.PositiveLimitFindsAll | pkg/service/resources/v1alpha3/interface.go:96-152 | with a positive limit there is such a walk: an empty page is reached |
| PageWalk.ZeroLimitStopsAtOnce | pkg/apiserver/query/types.go:96-110 | with limit 0 every walk is one empty page |
| PageWalk.NegativeLimitPage | pkg/apiserver/query/types.go:75-86 | with limit -1 the answer to every page is the first ten objects of its order |
| PageWalk.NegativeLimitNeverEnds | pkg/apiserver/query/types.go:75-86 | with limit -1 no walk over objects that match comes to an empty page |
| RequestInfo.NewRequestInfo | pkg/apiserver/request/requestinfo.go:119-309 | the outcome, with the deferred step on every exit, is that of the grammar given as functions |
| RequestInfo.ParseResource | pkg/apiserver/request/requestinfo.go:183-309 | the same from the API version on: special verb, workspace, namespace or DevOps project, resource |
| RequestInfo.ParseScope | pkg/apiserver/request/requestinfo.go:217-241 | the namespace or DevOps project and what is left to parse, a namespace subresource being left in place |
| RequestInfo.NameResource | pkg/apiserver/request/requestinfo.go:243-258 | parts, scope, resource, name and subresource by the fall-through switch |
| RequestInfo.FinishRequest | pkg/apiserver/request/requestinfo.go:260-306 | the final name, verb, workspace and scope, one case for each, in terms of the request as read from the path; no other field changes |
| RequestInfo.FinishMeaning | pkg/apiserver/request/requestinfo.go:260-306 | the cases per field, with nothing else changed, hold of exactly one result: that of the three adjustments one after the other |
| RequestInfo.PanicsIff | pkg/apiserver/request/requestinfo.go:207-208 | indexing fails if and only if the path is a groupless prefix, clusters, a cluster and a version |
| RequestInfo.ExitsIff | pkg/apiserver/request/requestinfo.go:146-208 | which paths are about a resource, which are refused because proxy or watch ends them, and which make indexing fail |
| RequestInfo.FirstSegmentNonEmpty | pkg/apiserver/request/requestinfo.go:327-334 | the first segment of a path is never empty |
| RequestInfo.KubernetesIff | pkg/apiserver/request/requestinfo.go:132-144 | at every return the request is a Kubernetes one exactly when the first segment is api or apis |
| RequestInfo.ParsedResourceFacts | pkg/apiserver/request/requestinfo.go:146-306 | for a resource request Parts is a non-empty suffix of the split path and starts with the resource, Namespace and DevOps are never both set, and an empty name leaves neither verb get nor delete |
| RequestInfo.ClusterInsertion | pkg/apiserver/request/requestinfo.go:158-166 | the cluster pair after the prefix sets Cluster and changes nothing else, on success, non-resource and error exits alike |
| RequestPaths.RenderedSplits | pkg/apiserver/request/requestinfo.go:327-334 | splitting a rendered path gives its segments back |
| RequestPaths.RoundTrip | pkg/apiserver/request/requestinfo.go:119-309 | parsing a rendered resource path gives exactly the information it was rendered from |
| RequestPaths.RoundTripFields | pkg/apiserver/request/requestinfo.go:119-309 | prefix, cluster, group, version, workspace, namespace or project, resource, name and subresource come back, also for a namespace, project or workspace itself; the verb is create, get, update, patch or delete by HTTP method, or list, watch or deletecollection without a name; proxy drops the subresource; the scope is that of the group, namespace, project or workspace |
| RequestPaths.WatchMeaning | pkg/apiserver/request/requestinfo.go:262-290 | a list is a watch when the decoded options say so, or, if they cannot be decoded, when a watch parameter is given and is not 0 or any spelling of false; the name is one the options pin that is fit for a path |
| RequestPaths.ClusterInsertedInPath | pkg/apiserver/request/requestinfo.go:158-166 | the insertion said about path strings |
| Analysis.InitInv | pkg/controller/schedule/analysis/analysis_controller.go:50-62 | start-up with an empty cache satisfies the invariant, whatever the cluster holds and has announced |
| Analysis.CoveredStep | pkg/controller/schedule/analysis/analysis_controller.go:140-155 | while a namespace is cached, no step of anybody uncovers it: a new deployment has a pending event, and a delivered event reaches the handler |
| Analysis.ServedStep | pkg/controller/schedule/analysis/analysis_controller.go:142-155 | a requested deployment stays requested, and a handler ends only by requesting its own deployment |
| Analysis.IssueStep | pkg/controller/schedule/analysis/analysis_controller.go:131-134 | one request of the loop covers its own deployment and leaves the rest of the List to be done |
| Analysis.CacheStep | pkg/controller/schedule/analysis/analysis_controller.go:112-124 | a cache write keeps every key and stores a namespace task that names its key |
| Analysis.OwnStep | pkg/controller/schedule/analysis/analysis_controller.go:112-138 | the moving worker keeps its promise: the cache is written before the List, and what it listed covers the namespace |
| Analysis.DoneStep | pkg/controller/schedule/analysis/analysis_controller.go:131-134 | a loop that ends leaves its namespace covered |
| Analysis.InvStep | pkg/controller/schedule/analysis/analysis_controller.go:77-155 | every atomic step keeps the invariant |
| Analysis.InvRun | pkg/controller/schedule/analysis/analysis_controller.go:77-155 | the invariant holds after every run |
| Analysis.NoLostDeployment | pkg/controller/schedule/analysis/analysis_controller.go:112-155 | in every reachable state each live deployment of a namespace whose List succeeded and whose loop ended has been requested itself, by its name as a Deployment of apps/v1 and not as an earlier one of that name, or its Add event is undelivered or being handled |
| Analysis.AllRequestedWhenDrained | README.md:6 | once no event is left, every live deployment of the namespace, previous or subsequent, has been requested itself |
| Analysis.OriginsStep | pkg/controller/schedule/analysis/analysis_controller.go:77-155 | every step keeps track of the task that each cache entry, pending handler and request comes from |
| Analysis.NoUnaskedRequest | pkg/controller/schedule/analysis/analysis_controller.go:101-155 | in every run each request is for a Deployment selector of some deployment task, or for a known deployment of a namespace that some namespace task selects, with that task's strategy |
| Analysis.CacheFacts | pkg/controller/schedule/analysis/analysis_controller.go:88-124 | every cached task has type Namespace and a Namespace selector naming its key, and keys and requests are never taken back |
| Analysis.Grows | pkg/controller/schedule/analysis/analysis_controller.go:124-133 | cache keys, requests and finished namespaces only grow |
| AnalysisController.Controller.IssueAll | pkg/controller/schedule/analysis/analysis_controller.go:131-134 | with others running in between, the loop has requested every listed deployment by its own name, kind Deployment and version apps/v1 with the task's strategy, and ends with the namespace covered |
| AnalysisController.Controller.ReconcileSelector | pkg/controller/schedule/analysis/analysis_controller.go:120-134 | a Namespace selector is finished exactly when its List succeeds |
| AnalysisController.Controller.ReconcileNamespaceAnalysis | pkg/controller/schedule/analysis/analysis_controller.go:112-138 | a loop that runs to its end has covered every selected namespace, and it stops early only for an empty name or a failed List |
| AnalysisController.Controller.ReconcileDeploymentAnalysis | pkg/controller/schedule/analysis/analysis_controller.go:101-110 | every Deployment selector is requested in the task's own namespace |
| AnalysisController.Controller.Reconcile | pkg/controller/schedule/analysis/analysis_controller.go:77-99 | fails exactly when Get fails, and otherwise does what the task type asks for |
| AnalysisController.Controller.AddFunc | pkg/controller/schedule/analysis/analysis_controller.go:142-155 | with others running between the cache read and the call, a request that names the deployment as a Deployment of apps/v1 is issued when the namespace is cached on arrival, with the strategy cached then, and none when it is not |
| Utf8Reverse.EncodeDecoded | pkg/utils/stringutils/string.go:81-83 | what is decoded is a scalar value and encodes to the bytes it was read from |
| Utf8Reverse.DecodeEncoded | pkg/utils/stringutils/string.go:81-83 | an encoded scalar value is read back whatever follows |
| Utf8Reverse.EncodeCodePoints | pkg/utils/stringutils/string.go:77-86 | a valid string is the encoding of its code points |
| Utf8Reverse.CodePointsEncoded | pkg/utils/stringutils/string.go:77-86 | the code points of an encoding are those encoded, and it is valid |
| Utf8Reverse.ReversedStringFacts | pkg/utils/stringutils/string.go:77-86 | the reversed string is valid, as long as the input, and has its code points in reverse |
| Utf8Reverse.ReversedStringTwice | pkg/utils/stringutils/string.go:77-86 | reversing twice gives the string back |
| Utf8Reverse.Advance | pkg/utils/stringutils/string.go:80-84 | one turn of the loop puts the next character in front of those written |
| Utf8Reverse.Reverse | pkg/utils/stringutils/string.go:77-86 | a valid string is reversed with exactly one store to each byte of the buffer and none outside; a string makes it index out of range exactly when it is broken at its start |
| ConditionsParser.ParseConditions | pkg/server/params/params.go:78-112 | the shrinking loop reads the comma-separated segments from left to right |
| ConditionsParser.ReadFirst | pkg/server/params/params.go:84-110 | reading a text is reading what is in front of the first comma and then what is behind it |
| ConditionsParser.TakeApart | pkg/server/params/params.go:94-101 | key, value and kind of one segment, by its first separator |
| ConditionsParser.ParseFailsIff | pkg/server/params/params.go:102-104 | parsing fails exactly when some non-empty segment has a forbidden character in its key |
| ConditionsParser.ParseAppend | pkg/server/params/params.go:84-110 | parsing "s,t" is parsing both and letting t override, and fails exactly when one of them fails |
| ConditionsParser.RoundTrip | pkg/server/params/params.go:78-112 | any Match and Fuzzy maps written in any order are read back, a key alone standing for an empty exact value |
| InformerFactory.Factory.InformerFor | pkg/client/informers/externalversions/factory.go:147-166 | an informer is built only when the type has none, with the type's own resync period, and is the one registered |
| InformerFactory.Factory.Start | pkg/client/informers/externalversions/factory.go:111-121 | in some order over all registered types, those not started are run and marked |
| InformerFactory.Factory.TakeSnapshot | pkg/client/informers/externalversions/factory.go:125-136 | under the lock, the informers that are registered and started |
| InformerFactory.Factory.WaitForCacheSync | pkg/client/informers/externalversions/factory.go:124-143 | whatever others register and start while it waits, the result has exactly the types started at its snapshot, each with the outcome of waiting for its informer, which is still registered and started at the return |
| InformerFactory.StartInv | pkg/client/informers/externalversions/factory.go:115-120 | Start keeps the invariant, starts every registered type, and never starts one twice |
| InformerFactory.CallInv | pkg/client/informers/externalversions/factory.go:111-166 | one call keeps the invariant, replaces no informer and stops nothing |
| InformerFactory.AnyInterleaving | pkg/client/informers/externalversions/factory.go:111-166 | over any sequence of calls each informer is built at most once and never replaced, and run at most once and only if registered |
| InformerFactory.RegisteredRunsAfterStart | pkg/client/informers/externalversions/factory.go:111-121 | an informer registered before a Start is running after it and from then on |
| InformerFactory.SyncReportsRunning | pkg/client/informers/externalversions/factory.go:124-143 | the types reported are exactly those whose informer has been run |
| SliceRemoval.RemoveString | pkg/utils/sliceutil/sliceutils.go:19-27 | the result is what `remove` rejects in order, each element is tested once from left to right in spite of the shifting, and the freed places of the backing array hold the last element |
| SliceRemoval.KeptCount | pkg/utils/sliceutil/sliceutils.go:19-27 | what is rejected stays as often as it was there, and nothing else stays |
| SliceRemoval.Shift | pkg/utils/sliceutil/sliceutils.go:22 | removing one place shifts the rest down by one inside the backing array |

## Left out

- DeepDiff.Cmp.SaveDiff: keeps the path and the two shown texts apart instead of formatting one string, because the wording carries no decision; `logError` is left out with it.
- DeepDiff.Cmp.Equals: an `Error` or `Equal` method that panics, or one called through an unexported field, is not modelled; such methods are functions of the value.
- DeepGraph.GraphRunIsTreeRun: asks for MaxDepth of at least 1, because with no depth limit a cyclic value makes the code recurse for ever.
- DeepGraph.GraphShortcutsChangeNothing: asks for no NaN key, because with one the shortcut does change the result (`DeepPaths.NilTrustedIff`).
- DeepPaths.ShortcutsChangeNothing: asks for no NaN key in the left value that is looked into, for the same reason.
- PageWalk.WalkCompletes: says nothing about sort keys that tie, since `sort.Slice` is unstable and the ascending comparison is then not an order.
- PageWalk.WalkFindsAllIff: leaves out offsets and limits so large that 64-bit arithmetic wraps within the collection.
- Utf8Reverse.Reverse: for strings that are not valid UTF-8 only the length and the index failure are stated, not the bytes.
- RequestInfo.ScopeOf: is followed as the code has it: whether the scope is Global is asked before the resource is known (`pkg/apiserver/request/requestinfo.go:246-257`), so that nothing is claimed about global resources as such.
- RequestInfo.NewRequestInfo: SourceIP and UserAgent are copied from the HTTP request and left out; query decoding, field selectors and the path-segment check are parameters.
- Query.ParseQueryParameter: URL decoding and Go's number and boolean parsers are parameters.
- ListPipeline.DefaultList: objects are pointers or nil, as every caller passes them; other dynamic types make `IsNil` fail.
- ConditionsParser.ParseConditions: strings are sequences of characters, and the forbidden-key expression is its character class.
- Analysis.NoLostDeployment: is about Lists that succeeded; failed Lists are steps, but their retry is not, since `Reconcile` drops the error (`pkg/controller/schedule/analysis/analysis_controller.go:93`).
- Analysis.Next: cache reads and writes are atomic, since the embedded mutex is not used, and events are neither merged nor repeated by a relist; a deleted deployment never comes back with the same uid.
- InformerFactory.Factory.WaitForCacheSync: whether an informer has synced is a parameter, and a run started by `go` counts as running.
- The body of `CreateCraneAnalysis` (`pkg/service/schedule/crane.go`): the model ends at the issued request.
- The installer, namespace, analytics and recommendation event handlers and `UpdateScheduleConfig`: logging and one field assignment.
- `ParsePaging`, `Selector`, `And` and `Or` on filters, `Diff`, `Unique`, `FindString`, `HasString` and other helpers: only easy claims.
- Wall-clock time, regular expressions, float formatting and the algorithm inside `sort.Slice`: parameters or contracts.
- Generated clients, listers and deep copies, configuration loading, server start-up and deployment manifests: input and output or boilerplate.
