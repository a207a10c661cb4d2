/**
 * The database side: the filter and sort definitions the translator builds,
 * and an abstract collection that the fetch and the count are run against.
 */
module Mongo {
  import opened Optional
  import Kendo

  /** The `FilterDefinition`s that `Builders<T>.Filter` and the `&` operator produce here. */
  datatype FilterDefinition =
    | Eq(field: string, value: Kendo.Value)
    | Ne(field: string, value: Kendo.Value)
    | Gte(field: string, value: Kendo.Value)
    | Lte(field: string, value: Kendo.Value)
    | Regex(field: string, pattern: string)
    | And(left: FilterDefinition, right: FilterDefinition)

  datatype SortDirection = Ascending | Descending

  /** What `Builders<T>.Sort.Ascending(field)` and `.Descending(field)` produce. */
  datatype SortDefinition = Directional(field: string, direction: SortDirection)

  /**
   * A collection as the fetch and the count see it: its documents, whether a
   * document satisfies a single (non-conjunctive) filter on the server, and
   * the order the server returns documents in for a sort definition.
   */
  datatype Store<!D(!new)> = Store(
    documents: seq<D>,
    satisfies: (FilterDefinition, D) -> bool,
    order: (SortDefinition, seq<D>) -> seq<D>)
  {
    /** Sorting only reorders. */
    ghost predicate OrderPermutes() {
      forall s, xs :: multiset(order(s, xs)) == multiset(xs)
    }
  }

  /** A conjunction holds when both sides do; any other filter is decided by the server. */
  predicate Holds<D(!new)>(store: Store<D>, f: FilterDefinition, doc: D) {
    match f
    case And(l, r) => Holds(store, l, doc) && Holds(store, r, doc)
    case _ => store.satisfies(f, doc)
  }

  /** None stands for the empty `BsonDocument`, which matches every document. */
  predicate Selects<D(!new)>(store: Store<D>, filter: Option<FilterDefinition>, doc: D) {
    match filter
    case None => true
    case Some(f) => Holds(store, f, doc)
  }

  /** The documents of `docs` the filter selects, in their order. */
  function Select<D(!new)>(store: Store<D>, filter: Option<FilterDefinition>, docs: seq<D>): (r: seq<D>)
    ensures forall i :: 0 <= i < |r| ==> Selects(store, filter, r[i])
    ensures multiset(r) <= multiset(docs)
    ensures forall x :: x in docs && Selects(store, filter, x) ==> x in r
    ensures forall x :: multiset(r)[x] == if Selects(store, filter, x) then multiset(docs)[x] else 0
  {
    if docs == [] then []
    else
      var rest := Select(store, filter, docs[1..]);
      assert docs == [docs[0]] + docs[1..];
      if Selects(store, filter, docs[0]) then [docs[0]] + rest else rest
  }

  /** The documents a query selects, in natural order. */
  function Matching<D(!new)>(store: Store<D>, filter: Option<FilterDefinition>): seq<D> {
    Select(store, filter, store.documents)
  }

  /**
   * `.Skip(skip).Limit(limit)` over an ordered result. The driver reads a
   * limit of 0 as no limit at all, so only positive limits are a window.
   */
  function Window<D>(xs: seq<D>, skip: nat, limit: nat): (r: seq<D>)
    requires limit >= 1
    ensures |r| <= limit
    ensures |r| == if skip >= |xs| then 0 else if |xs| - skip < limit then |xs| - skip else limit
    ensures forall i :: 0 <= i < |r| ==> r[i] == xs[skip + i]
  {
    var rest := if skip <= |xs| then xs[skip..] else [];
    if limit <= |rest| then rest[..limit] else rest
  }

  /** `Find(filter).Sort(sort).Skip(skip).Limit(limit).ToListAsync()`. */
  function Find<D(!new)>(store: Store<D>, filter: Option<FilterDefinition>, sort: SortDefinition, skip: nat, limit: nat): seq<D>
    requires limit >= 1
  {
    Window(store.order(sort, Matching(store, filter)), skip, limit)
  }

  /** `Find(filter).CountAsync()`: every match, regardless of any skip or limit. */
  function Count<D(!new)>(store: Store<D>, filter: Option<FilterDefinition>): nat {
    |Matching(store, filter)|
  }
}
