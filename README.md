# MongoHelper, modelled in Dafny

`MongoHelper` (MongoExtension.cs) serves a Kendo grid from a MongoDB collection. It takes a
`DataSourceRequest` (page, page size, sort descriptors, filter descriptors) and translates it
into a MongoDB sort, filter, skip and limit. It then fetches one page and counts every match.

The model is a small compiler from Kendo descriptors to MongoDB definitions, plus the page built
from its output:

- `Kendo.dfy` holds the request side. Sort descriptors, filter operators and values are
  datatypes. `FilterDescriptor` is a class, because `GetFilter` writes `MemberType` and `Value`
  back into it. `FilterNode` is a top-level entry of `Filters`: a simple descriptor, or a
  composite whose children are the same kind of node. A request's filters read in some heap
  are summarised by `Views`, a list of `NodeView` values.
- `Failures.dfy` turns each exception the code lets escape into an `Error` value inside a
  `Result`.
- `PropertyPath.dfy` models `FollowPropertyPath`. .NET reflection is replaced by an explicit
  `Schema`, a map from each type to its properties and their types.
- `Mongo.dfy` holds the MongoDB side: the `FilterDefinition`s built here and an abstract
  collection (`Store`). A `Store` has documents, a per-document test for each non-conjunctive
  filter, and a server-side ordering for each sort.
- `MongoHelper.dfy` has each operation twice:
  - as a function over values (`GetSortDefinition`, `Skip`, `MapOperator`, `Translate`,
    `Filters`, `PagedData`);
  - as an imperative method that has the source's loops and in-place updates (`GetFilter`,
    `GetFilters`, `GetPagedData`). Each method is proved equal to its function.
- `MongoHelperProperties.dfy` proves what the translator promises about those functions.

Integers are C# `int` (`int32`). The skip arithmetic wraps around as unchecked C# arithmetic
does (`Wrap`).

## Model

| member | source | states |
|---|---|---|
| MongoHelper.GetSortDefinition | MongoExtension.cs:94-116 | A sort is always produced. With no sort descriptors it is ascending on `_id`. Otherwise its field is the first descriptor's member, and it is ascending exactly when that descriptor is ascending. |
| MongoHelperProperties.SortIgnoresLaterDescriptors | MongoExtension.cs:98-108 | Appending sort descriptors after a first one never changes the sort (the loop breaks after one pass). |
| MongoHelper.Wrap | MongoExtension.cs:23-26 | Unchecked `int` arithmetic: a value that fits is unchanged, and the result is always congruent to the exact value modulo 2^32. |
| MongoHelper.Skip | MongoExtension.cs:23-26 | The skip is 0 on page 1. For a later page it is `(Page-1)*PageSize` wrapped to an `int`, so it is exactly that product whenever the product fits. From page 1 on, with `PageSize >= 0` and no overflow, it is non-negative. |
| MongoHelperProperties.SkipCountsEarlierPages | MongoExtension.cs:23-26 | For every page from 1 on, with no overflow, the skip equals the number of rows on the earlier pages. |
| MongoHelperProperties.SkipBeforeFirstPage | MongoExtension.cs:23-25 | A page below 1 gives the negative skip `Page-1`. For `int.MinValue` the subtraction wraps around to `int.MaxValue`. |
| MongoHelperProperties.SkipOverflows | MongoExtension.cs:25-26 | Page 46342 with page size 46341 overflows the multiplication and gives a negative skip. |
| MongoHelper.MapOperator | MongoExtension.cs:137-178 | The switch succeeds exactly for the six supported operators. Any other operator gives `NotImplemented` for that operator. A success is never a conjunction and is on the descriptor's member. Non-regex results carry the descriptor's value. |
| MongoHelperProperties.ComparisonOperators | MongoExtension.cs:139-162 | IsEqualTo, IsNotEqualTo, IsGreaterThanOrEqualTo and IsLessThanOrEqualTo give Eq, Ne, Gte and Lte on `Member` with `Value`. |
| MongoHelperProperties.PatternsEmbedValueVerbatim | MongoExtension.cs:163-174 | A Contains or StartsWith pattern is `/` (resp. `/^`), the value's text unchanged, then `/`. Stripping those delimiters gives the text back. |
| MongoHelperProperties.UnescapedCaretCollides | MongoExtension.cs:163-174 | Because nothing is escaped, Contains on `^x` builds the same filter as StartsWith on `x`. |
| MongoHelperProperties.UnsupportedOperatorNamed | MongoExtension.cs:175-177 | An unsupported operator fails, and the exception message names the operator after "The Telerik Operator ". |
| MongoHelper.Translate | MongoExtension.cs:126-178 | Translation never changes a descriptor's member or operator. A descriptor that already has a member type is left alone and only mapped. A successful filter is never a conjunction and is on the member. |
| MongoHelperProperties.ResolutionWritesBack | MongoExtension.cs:126-133 | Without a member type, the type the member path leads to is written back, and then the converted value. A missing property fails and leaves the descriptor as it was. A failed conversion fails after the type has been written. Otherwise the mapping sees the converted descriptor. |
| MongoHelper.TranslateAgain | MongoExtension.cs:126-133 | Translating a descriptor's state after translation leaves it as it is. After a success, it gives the same outcome again, so a descriptor reached twice is not re-resolved or re-converted. |
| MongoHelper.GetFilter | MongoExtension.cs:124-180 | The method returns the translation of the descriptor's state on entry and leaves the descriptor in the translated state. The incoming `filterDef` plays no part. |
| PropertyPath.Split | MongoExtension.cs:190 | `Split('.')` always gives at least one piece. |
| PropertyPath.JoinSplit | MongoExtension.cs:190 | Joining the pieces with the separator gives the path back. |
| PropertyPath.SplitJoin | MongoExtension.cs:190 | Splitting a join of separator-free pieces gives the pieces back. |
| PropertyPath.SplitAppend | MongoExtension.cs:190 | Splitting `p.q` gives the pieces of `p` followed by those of `q`. |
| PropertyPath.FollowPropertyPath | MongoExtension.cs:188-197 | The loop that reassigns the current type computes `FollowPath`, the walk over `path.Split('.')`. A missing property is the null-reference failure. |
| PropertyPath.FollowFindsChain | MongoExtension.cs:190-195 | A successful walk passes through a chain of declared properties from the root type to the result. |
| PropertyPath.ChainIsFollowed | MongoExtension.cs:190-195 | Every chain of declared properties is what the walk follows to its end. |
| PropertyPath.MissingSegmentFails | MongoExtension.cs:192-194 | The first segment that the type reached so far does not declare fails the walk, naming that type and segment. |
| PropertyPath.FollowAppend | MongoExtension.cs:190-195 | Walking segments `a + b` walks `a`, then `b` from the type `a` reached. |
| PropertyPath.PathComposes | MongoExtension.cs:188-197 | Path `p.q` from `t` resolves as `q` from the type `p` resolves to, and fails where `p` does. |
| MongoHelper.Conjoin | MongoExtension.cs:61-66 | The fold of `fd == null ? f : fd & f` is null exactly when it starts from null and nothing is added. |
| MongoHelper.ConjoinAppend | MongoExtension.cs:61-66 | Folding two lists one after the other is folding their concatenation. |
| MongoHelperProperties.ConjoinSnoc | MongoExtension.cs:61-66 | Each further filter is ANDed onto what was there, giving a left-nested `((f1 & f2) & f3)`. The first filter starts the accumulator on its own. |
| MongoHelperProperties.ConjoinConjuncts | MongoExtension.cs:61-66 | The leaves of the fold are the starting filter's leaves followed by the added filters, in order. |
| MongoHelper.TranslateAll | MongoExtension.cs:56-83 | On success there is one translated filter per visited descriptor, in order. On failure the error is that of the first descriptor whose translation fails. |
| MongoHelper.TranslateAllAppend | MongoExtension.cs:56-83 | Translating two lists of descriptors is translating each list, with the first failure winning. |
| MongoHelper.FoldChildrenIsCombine | MongoExtension.cs:72-81 | The inner loop's step-by-step result equals translating the children it visits and folding them, or `InvalidCast` at a nested composite. |
| MongoHelper.FoldNodesIsCombine | MongoExtension.cs:56-83 | The two nested loops compute exactly `Filters`: walk, translate, fold. |
| MongoHelper.AddFilter | MongoExtension.cs:58-66 | One `fd = fd == null ? GetFilter(fd, f) : fd & GetFilter(fd, f)` step gives `AddTo` of the descriptor's state before the loops began, even when the same descriptor is met again. It keeps every earlier translation in place. |
| MongoHelper.AddChildren | MongoExtension.cs:72-81 | The inner `foreach` computes the inner fold. A successful pass leaves every child descriptor translated. |
| MongoHelper.AddNode | MongoExtension.cs:58-82 | One pass of the outer `foreach` computes one step of the outer fold. A successful pass leaves every descriptor of the node translated. |
| MongoHelper.GetFilters | MongoExtension.cs:52-85 | The method returns `Filters` of the request's filters as they stood on entry. Each reached descriptor is left either unchanged or in its translated state. On success, every reached descriptor is in its translated state. |
| MongoHelperProperties.NoFiltersMeansNull | MongoExtension.cs:54-84 | The result is null (match everything) exactly when the walk reaches no descriptor and meets no nested composite. |
| MongoHelperProperties.FiltersAreConjunction | MongoExtension.cs:54-84 | A non-null result is a conjunction whose leaves are the translated simple filters, in request order, composite children spliced in. |
| MongoHelperProperties.ConjoinHolds | MongoExtension.cs:61-66 | A document passes the fold exactly when it passes the starting filter and each added filter. |
| MongoHelperProperties.FiltersMeaning | MongoExtension.cs:54-84 | The combined filter selects a document exactly when every translated simple filter holds for it. |
| MongoHelperProperties.FlattenAppend | MongoExtension.cs:56-83 | Walking two filter lists is walking the first, then the second, unless a cast failed in the first. |
| MongoHelperProperties.LogicalOperatorIgnored | MongoExtension.cs:68-81 | A composite's AND or OR operator makes no difference to the result. |
| MongoHelperProperties.SimpleWalks | MongoExtension.cs:56-81 | Simple descriptors are visited in order, at the top level and as composite children alike. |
| MongoHelperProperties.CompositeSplices | MongoExtension.cs:68-81 | A composite of simple descriptors gives the same result as those descriptors written at the top level in its place. |
| MongoHelperProperties.ChildrenCastFails | MongoExtension.cs:72 | The inner loop fails its cast exactly when a child is itself a composite. |
| MongoHelperProperties.FlattenCastFails | MongoExtension.cs:68-81 | The walk fails a cast exactly when some composite has a composite child. |
| MongoHelperProperties.NestedCompositeFails | MongoExtension.cs:72 | A nested composite makes the whole translation fail. When no descriptor visited earlier fails, the failure is `InvalidCast`. |
| MongoHelperProperties.FlatRequestsTranslateFully | MongoExtension.cs:56-83 | Without nested composites, the filters succeed exactly when every visited descriptor translates. |
| Mongo.Select | MongoExtension.cs:36-37 | The selected documents all pass the filter. Each document occurs in the result exactly as often as in the collection if it passes, and not at all otherwise. |
| Mongo.Window | MongoExtension.cs:36 | For a positive limit `l`, `.Skip(s).Limit(l)` holds at most `l` documents, and exactly as many as remain after `s`, up to `l`. Its i-th document is the ordered list's `(s+i)`-th. |
| MongoHelper.GetPagedData | MongoExtension.cs:17-50 | Given snapshots of the filters on entry, the method returns `PagedData`. Sort, skip, filter, fetch and count are computed as the code does, with both branches on a null filter. Each reached descriptor is left unchanged or translated. Once the filters translate, every reached descriptor is in its translated state, even when `Convert.ToInt32` then fails. |
| MongoHelperProperties.PageIsSliceOfMatches | MongoExtension.cs:34-43 | Fetch and count use the same filter. The page is the slice of the sorted matches that starts after the earlier pages' rows and holds at most `PageSize` documents. The total is the number of matches, ignoring skip and limit. |
| MongoHelperProperties.PageBounds | MongoExtension.cs:34-43 | A page holds at most `PageSize` documents and no more than the total, and each of them passes the filter. |
| MongoHelperProperties.TotalOverflowFails | MongoExtension.cs:48 | Once the filters translate, the page fails exactly when the count exceeds `int.MaxValue`. That is the overflow `Convert.ToInt32` throws. |
| MongoHelperProperties.LastPagePartial | MongoExtension.cs:23-43 | With 25 matches and 10 a page, page 3 holds the last 5 documents and the total is 25. |

## Left out

- The MongoDB driver calls, `BsonDocument` and `async`/`await` are not modelled. The collection is
  an abstract `Store`: a sequence of documents, a test per non-conjunctive filter and an ordering
  per sort. The only assumption about the ordering is that it permutes (`OrderPermutes`). A
  filter or sort the server would reject, such as an unknown field, is not modelled.
- Regular-expression matching is not modelled. Only the pattern string the code builds is.
- `Convert.ChangeType` is the parameter `Env.changeType`, a partial function that may fail. Its
  rules for `null` and for each target type are library behaviour.
- .NET reflection (`GetProperty`, `PropertyType`) is replaced by `Schema`. An
  `AmbiguousMatchException` and a null `Member` are not modelled.
- A filter entry that is neither a `FilterDescriptor` nor a `CompositeFilterDescriptor` is not
  modelled. The code skips such an entry, and `FilterNode` has no such case.
- MongoHelper.PagedData and MongoHelper.GetPagedData require `Page >= 1`, `PageSize >= 1` and a
  skip without overflow. The driver's behaviour for a negative skip or a limit of zero or less
  is library behaviour. What the code computes for those inputs is stated by `Skip` and its
  lemmas, but not carried through to the page.
- MongoHelper.GetFilters: on failure, the state contract says only that each reached descriptor
  is unchanged or in its translated state. It does not say which descriptors were reached
  before the exception.
- The grid UI, the web layer and the rest of `DataSourceRequest` and `DataSourceResult` are not
  modelled.
- Two behaviours of the code worth knowing, both modelled as written:
  - A page below 1 gives the negative skip `Page - 1`, not 0 (`SkipBeforeFirstPage`).
  - A composite nested inside a composite is not skipped. The code's
    `foreach (FilterDescriptor f in cf.FilterDescriptors)` casts each child, so a nested
    composite throws `InvalidCastException` (`NestedCompositeFails`).
- Mongo.Select: its contract fixes which documents are selected and how often, not that they
  keep the collection's order. The order of the matches is immaterial here, because the page
  is taken after the server's ordering.
