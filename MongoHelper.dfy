/**
 * `MongoHelper`: translates a grid request (page, page size, sorts, filters)
 * into a MongoDB filter, sort, skip and limit, and assembles the page.
 */
module MongoHelper {
  import opened Optional
  import opened Kendo
  import opened Failures
  import opened PropertyPath
  import opened Mongo

  /**
   * What the translation depends on besides the request: the document type
   * `T`, the properties reflection would find on each type, and
   * `Convert.ChangeType`, which may fail.
   */
  datatype Env = Env(schema: Schema, root: TypeName, changeType: (Value, TypeName) -> Option<Value>)

  // ----- Sorting -----

  /** `GetSortDefinition`: the first sort descriptor decides; with none, ascending on `_id`. */
  function GetSortDefinition(sorts: seq<SortDescriptor>): (sort: SortDefinition)
    ensures sort.field == if sorts == [] then "_id" else sorts[0].member
    ensures sort.direction == SortDirection.Ascending <==>
            sorts == [] || sorts[0].sortDirection == ListSortDirection.Ascending
  {
    if |sorts| > 0 then
      var first := sorts[0];
      if first.sortDirection == ListSortDirection.Ascending
      then Directional(first.member, SortDirection.Ascending)
      else Directional(first.member, SortDirection.Descending)
    else
      Directional("_id", SortDirection.Ascending)
  }

  // ----- Paging -----

  predicate FitsInt32(x: int) {
    -0x8000_0000 <= x < 0x8000_0000
  }

  /** Unchecked C# `int` arithmetic: the result taken modulo 2^32 into the signed range. */
  function Wrap(x: int): (r: int32)
    ensures FitsInt32(x) ==> r as int == x
    ensures (r as int - x) % 0x1_0000_0000 == 0
  {
    ((x + 0x8000_0000) % 0x1_0000_0000 - 0x8000_0000) as int32
  }

  /** The skip computed in `GetPagedData`: `Page - 1`, multiplied by `PageSize` only when `Page > 1`. */
  function Skip(page: int32, pageSize: int32): (skip: int32)
    ensures page == 1 ==> skip == 0
    ensures page > 1 && FitsInt32((page as int - 1) * pageSize as int) ==>
            skip as int == (page as int - 1) * pageSize as int
    ensures page >= 1 && pageSize >= 0 && FitsInt32((page as int - 1) * pageSize as int) ==> skip >= 0
    ensures page > 1 ==> skip == Wrap((page as int - 1) * pageSize as int)
  {
    var skip := Wrap(page as int - 1);
    if page > 1 then Wrap(skip as int * pageSize as int) else skip
  }

  /** The paging values for which the driver's skip and limit are a plain window. */
  predicate PageInRange(page: int32, pageSize: int32) {
    page >= 1 && pageSize >= 1 && FitsInt32((page as int - 1) * pageSize as int)
  }

  // ----- One filter descriptor -----

  const SupportedOperators: set<FilterOperator> :=
    {IsEqualTo, IsNotEqualTo, IsGreaterThanOrEqualTo, IsLessThanOrEqualTo, Contains, StartsWith}

  /** The operator switch of `GetFilter`, over the descriptor's current member, operator and value. */
  function MapOperator(d: DescriptorState): (r: Result<FilterDefinition>)
    ensures r.Ok? <==> d.operator in SupportedOperators
    ensures r.Err? ==> r.error == NotImplemented(d.operator)
    ensures r.Ok? ==> !r.value.And? && r.value.field == d.member
    ensures r.Ok? && !r.value.Regex? ==> r.value.value == d.value
  {
    match d.operator
    case IsEqualTo => Ok(Eq(d.member, d.value))
    case IsNotEqualTo => Ok(Ne(d.member, d.value))
    case IsGreaterThanOrEqualTo => Ok(Gte(d.member, d.value))
    case IsLessThanOrEqualTo => Ok(Lte(d.member, d.value))
    case Contains => Ok(Regex(d.member, "/" + d.value.Concatenated() + "/"))
    case StartsWith => Ok(Regex(d.member, "/^" + d.value.Concatenated() + "/"))
    case _ => Err(NotImplemented(d.operator))
  }

  /** The outcome of translating a descriptor, and the state the descriptor is left in. */
  datatype Translation = Translation(outcome: Result<FilterDefinition>, after: DescriptorState)

  /**
   * `GetFilter` on a descriptor in state `d`: when no member type is set yet,
   * resolve it from the member path and convert the value to it, writing both
   * back; then map the operator.
   */
  function Translate(env: Env, d: DescriptorState): (t: Translation)
    ensures t.after.member == d.member && t.after.operator == d.operator
    ensures d.memberType.Some? ==> t.after == d && t.outcome == MapOperator(d)
    ensures t.outcome.Ok? ==> !t.outcome.value.And? && t.outcome.value.field == d.member
  {
    if d.memberType.None? then
      match FollowPath(env.schema, env.root, d.member)
      case Err(e) => Translation(Err(e), d)
      case Ok(memberType) =>
        var typed := d.(memberType := Some(memberType));
        match env.changeType(d.value, memberType)
        case None => Translation(Err(ConversionFailed(d.value, memberType)), typed)
        case Some(converted) =>
          var resolved := typed.(value := converted);
          Translation(MapOperator(resolved), resolved)
    else
      Translation(MapOperator(d), d)
  }

  /** A translated descriptor translates again to the same outcome, and stays as it is. */
  lemma TranslateAgain(env: Env, d: DescriptorState)
    ensures Translate(env, Translate(env, d).after).after == Translate(env, d).after
    ensures Translate(env, d).outcome.Ok? ==> Translate(env, Translate(env, d).after) == Translate(env, d)
  {
  }

  /**
   * `GetFilter`. The incoming `filterDef` plays no part in the result; the
   * descriptor is left with its member type and value resolved.
   */
  method GetFilter(env: Env, filterDef: Option<FilterDefinition>, filterDesc: FilterDescriptor)
    returns (r: Result<FilterDefinition>)
    modifies filterDesc
    ensures r == Translate(env, old(filterDesc.State())).outcome
    ensures filterDesc.State() == Translate(env, old(filterDesc.State())).after
  {
    if filterDesc.memberType.None? {
      var memberType := FollowPropertyPath(env.schema, env.root, filterDesc.member);
      if memberType.Err? {
        return Err(memberType.error);
      }
      filterDesc.memberType := Some(memberType.value);
      var converted := env.changeType(filterDesc.value, memberType.value);
      if converted.None? {
        return Err(ConversionFailed(filterDesc.value, memberType.value));
      }
      filterDesc.value := converted.value;
    }
    r := MapOperator(filterDesc.State());
  }

  // ----- The filter list -----

  /** `fd == null ? f : fd & f`: the first filter starts the accumulator, later ones are ANDed onto it. */
  function Accumulate(acc: Option<FilterDefinition>, f: FilterDefinition): FilterDefinition {
    match acc
    case None => f
    case Some(a) => FilterDefinition.And(a, f)
  }

  /** Translating `d` and adding the result to the accumulator. */
  function AddTo(env: Env, acc: Option<FilterDefinition>, d: DescriptorState): Result<FilterDefinition> {
    match Translate(env, d).outcome
    case Err(e) => Err(e)
    case Ok(f) => Ok(Accumulate(acc, f))
  }

  /** The left fold of Accumulate over `fs`, starting from `acc`. */
  function Conjoin(acc: Option<FilterDefinition>, fs: seq<FilterDefinition>): (r: Option<FilterDefinition>)
    ensures r.None? <==> acc.None? && fs == []
    decreases |fs|
  {
    if fs == [] then acc else Conjoin(Some(Accumulate(acc, fs[0])), fs[1..])
  }

  /** The descriptors the two nested loops visit, in order, and whether the walk stops at a failed cast. */
  datatype Visit = Visit(descriptors: seq<DescriptorState>, castFails: bool)

  /** The inner loop's walk over a composite's children: it stops at the first child that is itself a composite. */
  function VisitChildren(children: seq<ChildView>): Visit {
    if children == [] then Visit([], false)
    else match children[0]
      case NestedComposite => Visit([], true)
      case SimpleChild(d) =>
        var rest := VisitChildren(children[1..]);
        Visit([d] + rest.descriptors, rest.castFails)
  }

  /** The outer loop's walk: simple descriptors in place, a composite's children spliced in whatever its logical operator. */
  function Flatten(views: seq<NodeView>): Visit {
    if views == [] then Visit([], false)
    else match views[0]
      case SimpleView(d) =>
        var rest := Flatten(views[1..]);
        Visit([d] + rest.descriptors, rest.castFails)
      case CompositeView(_, children) =>
        var head := VisitChildren(children);
        if head.castFails then head
        else
          var rest := Flatten(views[1..]);
          Visit(head.descriptors + rest.descriptors, rest.castFails)
  }

  /** Translates each descriptor in order; the first failure is the result. */
  function TranslateAll(env: Env, ds: seq<DescriptorState>): (r: Result<seq<FilterDefinition>>)
    ensures r.Ok? ==>
              |r.value| == |ds| &&
              forall i :: 0 <= i < |ds| ==> Translate(env, ds[i]).outcome == Ok(r.value[i])
    ensures r.Err? ==>
              exists i :: 0 <= i < |ds| && Translate(env, ds[i]).outcome == Err(r.error) &&
                (forall j :: 0 <= j < i ==> Translate(env, ds[j]).outcome.Ok?)
  {
    if ds == [] then Ok([])
    else match Translate(env, ds[0]).outcome
      case Err(e) => Err(e)
      case Ok(f) =>
        match TranslateAll(env, ds[1..])
        case Err(e) =>
          var i :| 0 <= i < |ds| - 1 && Translate(env, ds[1..][i]).outcome == Err(e) &&
                   forall j :: 0 <= j < i ==> Translate(env, ds[1..][j]).outcome.Ok?;
          assert Translate(env, ds[i + 1]).outcome == Err(e);
          assert forall j :: 0 <= j < i + 1 ==> Translate(env, ds[j]).outcome.Ok? by {
            forall j | 0 <= j < i + 1 ensures Translate(env, ds[j]).outcome.Ok? {
              if j > 0 { assert ds[j] == ds[1..][j - 1]; }
            }
          }
          Err(e)
        case Ok(fs) => Ok([f] + fs)
  }

  /** The result of the walk, starting from the accumulator `acc`. */
  function Combine(env: Env, acc: Option<FilterDefinition>, visit: Visit): Result<Option<FilterDefinition>> {
    match TranslateAll(env, visit.descriptors)
    case Err(e) => Err(e)
    case Ok(fs) => if visit.castFails then Err(InvalidCast) else Ok(Conjoin(acc, fs))
  }

  /**
   * What `GetFilters` computes for a snapshot of the filter list: every simple
   * descriptor reached, translated in request order and folded left with `&`;
   * None when there is none.
   */
  function Filters(env: Env, views: seq<NodeView>): Result<Option<FilterDefinition>> {
    Combine(env, None, Flatten(views))
  }

  /** The inner loop, step by step. */
  ghost function FoldChildren(env: Env, acc: Option<FilterDefinition>, children: seq<ChildView>): Result<Option<FilterDefinition>>
    decreases |children|
  {
    if children == [] then Ok(acc)
    else match children[0]
      case NestedComposite => Err(InvalidCast)
      case SimpleChild(d) =>
        match Translate(env, d).outcome
        case Err(e) => Err(e)
        case Ok(f) => FoldChildren(env, Some(Accumulate(acc, f)), children[1..])
  }

  /** The outer loop, step by step. */
  ghost function FoldNodes(env: Env, acc: Option<FilterDefinition>, views: seq<NodeView>): Result<Option<FilterDefinition>>
    decreases |views|
  {
    if views == [] then Ok(acc)
    else match views[0]
      case SimpleView(d) =>
        (match Translate(env, d).outcome
         case Err(e) => Err(e)
         case Ok(f) => FoldNodes(env, Some(Accumulate(acc, f)), views[1..]))
      case CompositeView(_, children) =>
        match FoldChildren(env, acc, children)
        case Err(e) => Err(e)
        case Ok(next) => FoldNodes(env, next, views[1..])
  }

  /** The outer loop continuing over `views` from the accumulator the inner loop produced. */
  ghost function ThenFoldNodes(env: Env, inner: Result<Option<FilterDefinition>>, views: seq<NodeView>): Result<Option<FilterDefinition>> {
    match inner
    case Err(e) => Err(e)
    case Ok(next) => FoldNodes(env, next, views)
  }

  /** One step of the outer loop over a simple descriptor. */
  lemma FoldNodesSimple(env: Env, acc: Option<FilterDefinition>, views: seq<NodeView>, i: nat, d: DescriptorState)
    requires i < |views| && views[i] == SimpleView(d)
    ensures FoldNodes(env, acc, views[i..]) ==
            if AddTo(env, acc, d).Err? then Err(AddTo(env, acc, d).error)
            else FoldNodes(env, Some(AddTo(env, acc, d).value), views[i + 1..])
  {
    assert views[i..][0] == views[i] && views[i..][1..] == views[i + 1..];
  }

  /** The outer loop reaching a composite hands over to the inner loop. */
  lemma FoldNodesComposite(env: Env, acc: Option<FilterDefinition>, views: seq<NodeView>, i: nat)
    requires i < |views| && views[i].CompositeView?
    ensures FoldNodes(env, acc, views[i..]) == ThenFoldNodes(env, FoldChildren(env, acc, views[i].children), views[i + 1..])
  {
    assert views[i..][0] == views[i] && views[i..][1..] == views[i + 1..];
  }

  /** The outer loop, one top-level node at a time. */
  lemma FoldNodesStep(env: Env, acc: Option<FilterDefinition>, views: seq<NodeView>, i: nat)
    requires i < |views|
    ensures FoldNodes(env, acc, views[i..]) == ThenFoldNodes(env, FoldNodes(env, acc, [views[i]]), views[i + 1..])
  {
    assert views[i..][0] == views[i] && views[i..][1..] == views[i + 1..];
    assert [views[i]][1..] == [];
  }

  /** One step of the inner loop over a simple child. */
  lemma FoldChildrenSimple(env: Env, acc: Option<FilterDefinition>, children: seq<ChildView>, j: nat, d: DescriptorState)
    requires j < |children| && children[j] == SimpleChild(d)
    ensures FoldChildren(env, acc, children[j..]) ==
            if AddTo(env, acc, d).Err? then Err(AddTo(env, acc, d).error)
            else FoldChildren(env, Some(AddTo(env, acc, d).value), children[j + 1..])
  {
    assert children[j..][0] == children[j] && children[j..][1..] == children[j + 1..];
  }

  /** The inner loop reaching a nested composite fails the cast. */
  lemma FoldChildrenNested(env: Env, acc: Option<FilterDefinition>, children: seq<ChildView>, j: nat)
    requires j < |children| && children[j] == NestedComposite
    ensures FoldChildren(env, acc, children[j..]) == Err(InvalidCast)
  {
    assert children[j..][0] == children[j];
  }

  lemma {:induction false} ConjoinAppend(acc: Option<FilterDefinition>, a: seq<FilterDefinition>, b: seq<FilterDefinition>)
    ensures Conjoin(acc, a + b) == Conjoin(Conjoin(acc, a), b)
    decreases |a|
  {
    if a == [] {
      assert a + b == b;
    } else {
      assert (a + b)[0] == a[0] && (a + b)[1..] == a[1..] + b;
      ConjoinAppend(Some(Accumulate(acc, a[0])), a[1..], b);
    }
  }

  lemma {:induction false} TranslateAllAppend(env: Env, a: seq<DescriptorState>, b: seq<DescriptorState>)
    ensures TranslateAll(env, a + b) ==
            match TranslateAll(env, a)
            case Err(e) => Err(e)
            case Ok(fa) => (match TranslateAll(env, b) case Err(e) => Err(e) case Ok(fb) => Ok(fa + fb))
    decreases |a|
  {
    if a == [] {
      assert a + b == b;
      if TranslateAll(env, b).Ok? { assert [] + TranslateAll(env, b).value == TranslateAll(env, b).value; }
    } else {
      assert (a + b)[0] == a[0] && (a + b)[1..] == a[1..] + b;
      TranslateAllAppend(env, a[1..], b);
      match Translate(env, a[0]).outcome
      case Err(_) =>
      case Ok(f) =>
        match TranslateAll(env, a[1..])
        case Err(_) =>
        case Ok(rest) =>
          match TranslateAll(env, b)
          case Err(_) =>
          case Ok(fb) => assert [f] + rest + fb == [f] + (rest + fb);
    }
  }

  /** The inner loop's step-by-step result agrees with the walk's. */
  lemma {:induction false} FoldChildrenIsCombine(env: Env, acc: Option<FilterDefinition>, children: seq<ChildView>)
    ensures FoldChildren(env, acc, children) == Combine(env, acc, VisitChildren(children))
    decreases |children|
  {
    if children != [] && children[0].SimpleChild? {
      var d := children[0].state;
      var rest := VisitChildren(children[1..]);
      assert VisitChildren(children).descriptors == [d] + rest.descriptors;
      assert ([d] + rest.descriptors)[1..] == rest.descriptors;
      if Translate(env, d).outcome.Ok? {
        FoldChildrenIsCombine(env, Some(Accumulate(acc, Translate(env, d).outcome.value)), children[1..]);
      }
    }
  }

  /** The two loops compute exactly the walk-translate-fold of Filters. */
  lemma {:induction false} FoldNodesIsCombine(env: Env, acc: Option<FilterDefinition>, views: seq<NodeView>)
    ensures FoldNodes(env, acc, views) == Combine(env, acc, Flatten(views))
    decreases |views|
  {
    if views != [] {
      match views[0]
      case SimpleView(d) =>
        var rest := Flatten(views[1..]);
        assert Flatten(views).descriptors == [d] + rest.descriptors;
        assert ([d] + rest.descriptors)[1..] == rest.descriptors;
        if Translate(env, d).outcome.Ok? {
          FoldNodesIsCombine(env, Some(Accumulate(acc, Translate(env, d).outcome.value)), views[1..]);
        }
      case CompositeView(_, children) =>
        FoldChildrenIsCombine(env, acc, children);
        var head := VisitChildren(children);
        if !head.castFails {
          var rest := Flatten(views[1..]);
          TranslateAllAppend(env, head.descriptors, rest.descriptors);
          match TranslateAll(env, head.descriptors)
          case Err(_) =>
          case Ok(fa) =>
            FoldNodesIsCombine(env, Conjoin(acc, fa), views[1..]);
            match TranslateAll(env, rest.descriptors)
            case Err(_) =>
            case Ok(fb) => ConjoinAppend(acc, fa, fb);
        }
    }
  }

  /** A descriptor is either as it was, or translated successfully and left in its translated state. */
  ghost predicate Settled(env: Env, o: FilterDescriptor, was: DescriptorState)
    reads o
  {
    o.State() == was || (Translate(env, was).outcome.Ok? && o.State() == Translate(env, was).after)
  }

  /** A descriptor is either as it was, or in the state a translation left it in, successful or not. */
  ghost predicate Touched(env: Env, o: FilterDescriptor, was: DescriptorState)
    reads o
  {
    o.State() == was || o.State() == Translate(env, was).after
  }

  /** Every descriptor in `initial` is touched at most once, relative to its state there. */
  ghost predicate AllTouched(env: Env, initial: map<FilterDescriptor, DescriptorState>)
    reads initial.Keys
  {
    forall o :: o in initial ==> Touched(env, o, initial[o])
  }

  /** Every descriptor in `initial` is settled relative to its state there. */
  ghost predicate AllSettled(env: Env, initial: map<FilterDescriptor, DescriptorState>)
    reads initial.Keys
  {
    forall o :: o in initial ==> Settled(env, o, initial[o])
  }

  /** Every descriptor in `done` has been translated from its state in `initial`. */
  ghost predicate AllTranslated(env: Env, initial: map<FilterDescriptor, DescriptorState>, done: set<FilterDescriptor>)
    reads done
  {
    forall o :: o in done ==> o in initial && o.State() == Translate(env, initial[o]).after
  }

  /** Translating a settled descriptor's current state gives what translating its original state gave. */
  lemma SettledTranslates(env: Env, o: FilterDescriptor, was: DescriptorState)
    requires Settled(env, o, was)
    ensures Translate(env, o.State()) == Translate(env, was)
  {
    TranslateAgain(env, was);
  }

  /**
   * The block both loops of `GetFilters` run on one descriptor: translate it,
   * then start the conjunction with it or AND it onto the conjunction. The
   * ghost `initial` holds every descriptor's state before the loops, `done`
   * those already translated.
   */
  method AddFilter(env: Env, fd: Option<FilterDefinition>, f: FilterDescriptor,
                   ghost initial: map<FilterDescriptor, DescriptorState>, ghost done: set<FilterDescriptor>)
    returns (r: Result<FilterDefinition>)
    requires f in initial && done <= initial.Keys
    requires AllSettled(env, initial) && AllTranslated(env, initial, done)
    modifies f
    ensures r == AddTo(env, fd, initial[f])
    ensures f.State() == Translate(env, initial[f]).after
    ensures AllTouched(env, initial)
    ensures r.Ok? ==> AllSettled(env, initial) && AllTranslated(env, initial, done + {f})
  {
    ghost var was := initial[f];
    assert Settled(env, f, was);
    SettledTranslates(env, f, was);
    TranslateAgain(env, was);
    var translated := GetFilter(env, fd, f);
    forall o | o in initial ensures Touched(env, o, initial[o]) {
      if o != f { assert old(Settled(env, o, initial[o])); }
    }
    if translated.Err? {
      return Err(translated.error);
    }
    forall o | o in initial ensures Settled(env, o, initial[o]) {
      if o != f { assert old(Settled(env, o, initial[o])); }
    }
    forall o | o in done + {f} ensures o in initial && o.State() == Translate(env, initial[o]).after {
      if o != f { assert old(o.State() == Translate(env, initial[o]).after); }
    }
    if fd.None? {
      r := Ok(translated.value);
    } else {
      r := Ok(FilterDefinition.And(fd.value, translated.value));
    }
  }

  /** A composite's child as seen in the snapshot `initial`. */
  ghost function ChildViewIn(initial: map<FilterDescriptor, DescriptorState>, c: FilterNode): ChildView
    requires Own(c) <= initial.Keys
  {
    match c
    case Simple(d) => SimpleChild(initial[d])
    case Composite(_, _) => NestedComposite
  }

  /** A top-level node as seen in the snapshot `initial`. */
  ghost function NodeViewIn(initial: map<FilterDescriptor, DescriptorState>, n: FilterNode): NodeView
    requires NodeDescriptors(n) <= initial.Keys
  {
    match n
    case Simple(d) => SimpleView(initial[d])
    case Composite(op, children) =>
      CompositeView(op, seq(|children|, j requires 0 <= j < |children| => ChildViewIn(initial, children[j])))
  }

  /** The views of a snapshot taken of every reached descriptor are the views of the current state. */
  lemma SnapshotViews(filters: seq<FilterNode>, initial: map<FilterDescriptor, DescriptorState>, views: seq<NodeView>)
    requires initial.Keys == Reached(filters)
    requires forall o :: o in initial ==> initial[o] == o.State()
    requires |views| == |filters|
    requires forall k :: 0 <= k < |filters| ==> NodeDescriptors(filters[k]) <= initial.Keys
    requires forall k :: 0 <= k < |filters| ==> views[k] == NodeViewIn(initial, filters[k])
    ensures views == Views(filters)
  {
    forall k | 0 <= k < |filters| ensures views[k] == NodeViewOf(filters[k]) {
      var n := filters[k];
      if n.Composite? {
        var children := n.filterDescriptors;
        forall m | 0 <= m < |children| ensures ChildViewIn(initial, children[m]) == ChildViewOf(children[m]) {
          if children[m].Simple? {
            assert children[m].descriptor in Own(children[m]);
            assert children[m].descriptor in NodeDescriptors(n);
          }
        }
        assert views[k].children == NodeViewOf(n).children;
      }
    }
  }

  /** The state of every reached descriptor, and the views built from it, before `GetFilters` runs. */
  ghost method Snapshot(filters: seq<FilterNode>) returns (initial: map<FilterDescriptor, DescriptorState>, views: seq<NodeView>)
    ensures initial.Keys == Reached(filters)
    ensures forall o :: o in initial ==> initial[o] == o.State()
    ensures |views| == |filters|
    ensures forall k :: 0 <= k < |filters| ==> NodeDescriptors(filters[k]) <= initial.Keys
    ensures forall k :: 0 <= k < |filters| ==> views[k] == NodeViewIn(initial, filters[k])
    ensures views == old(Views(filters))
  {
    initial := map o | o in Reached(filters) :: o.State();
    views := seq(|filters|, k requires 0 <= k < |filters| => NodeViewIn(initial, filters[k]));
    SnapshotViews(filters, initial, views);
  }

  /** Every descriptor reachable from the first `i` nodes is in `done`. */
  ghost predicate Covered(filters: seq<FilterNode>, i: nat, done: set<FilterDescriptor>)
    requires i <= |filters|
  {
    forall k :: 0 <= k < i ==> NodeDescriptors(filters[k]) <= done
  }

  lemma CoveredStep(filters: seq<FilterNode>, i: nat, before: set<FilterDescriptor>, after: set<FilterDescriptor>)
    requires i < |filters| && Covered(filters, i, before)
    requires before <= after && NodeDescriptors(filters[i]) <= after
    ensures Covered(filters, i + 1, after)
  {
  }

  /** Every descriptor reached from the nodes is covered by `done`. */
  lemma AllNodesReached(filters: seq<FilterNode>, done: set<FilterDescriptor>)
    requires Covered(filters, |filters|, done)
    ensures Reached(filters) <= done
  {
  }

  /**
   * The inner loop of `GetFilters`: every child of a composite is cast to a
   * `FilterDescriptor` and added to the conjunction, whatever the composite's
   * logical operator.
   */
  method AddChildren(env: Env, fd: Option<FilterDefinition>, children: seq<FilterNode>,
                     ghost initial: map<FilterDescriptor, DescriptorState>, ghost done: set<FilterDescriptor>,
                     ghost childViews: seq<ChildView>)
    returns (r: Result<Option<FilterDefinition>>, ghost done': set<FilterDescriptor>)
    requires |childViews| == |children|
    requires forall m :: 0 <= m < |children| ==> Own(children[m]) <= initial.Keys
    requires forall m :: 0 <= m < |children| ==> childViews[m] == ChildViewIn(initial, children[m])
    requires done <= initial.Keys
    requires AllSettled(env, initial) && AllTranslated(env, initial, done)
    modifies initial.Keys
    ensures r == FoldChildren(env, fd, childViews)
    ensures AllTouched(env, initial)
    ensures r.Ok? ==> AllSettled(env, initial) && AllTranslated(env, initial, done') && done <= done' <= initial.Keys
    ensures r.Ok? ==> forall m :: 0 <= m < |children| && children[m].Simple? ==> children[m].descriptor in done'
  {
    done' := done;
    var acc := fd;
    var j := 0;
    while j < |children|
      invariant 0 <= j <= |children|
      invariant FoldChildren(env, fd, childViews) == FoldChildren(env, acc, childViews[j..])
      invariant done <= done' <= initial.Keys
      invariant AllSettled(env, initial) && AllTranslated(env, initial, done')
      invariant forall m :: 0 <= m < j && children[m].Simple? ==> children[m].descriptor in done'
    {
      var child := children[j];
      if !child.Simple? {
        FoldChildrenNested(env, acc, childViews, j);
        return Err(InvalidCast), done';
      }
      var f := child.descriptor;
      assert f in Own(children[j]);
      FoldChildrenSimple(env, acc, childViews, j, initial[f]);
      var translated := AddFilter(env, acc, f, initial, done');
      if translated.Err? {
        return Err(translated.error), done';
      }
      done' := done' + {f};
      acc := Some(translated.value);
      j := j + 1;
    }
    return Ok(acc), done';
  }

  /** One pass of `GetFilters`' outer loop: a simple descriptor, or each child of a composite. */
  method AddNode(env: Env, fd: Option<FilterDefinition>, filter: FilterNode,
                 ghost initial: map<FilterDescriptor, DescriptorState>, ghost done: set<FilterDescriptor>,
                 ghost view: NodeView)
    returns (r: Result<Option<FilterDefinition>>, ghost done': set<FilterDescriptor>)
    requires NodeDescriptors(filter) <= initial.Keys
    requires view == NodeViewIn(initial, filter)
    requires done <= initial.Keys
    requires AllSettled(env, initial) && AllTranslated(env, initial, done)
    modifies initial.Keys
    ensures r == FoldNodes(env, fd, [view])
    ensures AllTouched(env, initial)
    ensures r.Ok? ==> AllSettled(env, initial) && AllTranslated(env, initial, done') && done <= done' <= initial.Keys
    ensures r.Ok? ==> NodeDescriptors(filter) <= done'
  {
    if filter.Simple? {
      var f := filter.descriptor;
      assert f in NodeDescriptors(filter);
      FoldNodesSimple(env, fd, [view], 0, initial[f]);
      var translated := AddFilter(env, fd, f, initial, done);
      if translated.Err? {
        return Err(translated.error), done;
      }
      return Ok(Some(translated.value)), done + {f};
    } else {
      var children := filter.filterDescriptors;
      FoldNodesComposite(env, fd, [view], 0);
      forall m | 0 <= m < |children| ensures Own(children[m]) <= initial.Keys {
        if children[m].Simple? {
          assert children[m].descriptor in Own(children[m]);
          assert children[m].descriptor in NodeDescriptors(filter);
        }
      }
      r, done' := AddChildren(env, fd, children, initial, done, view.children);
      if r.Ok? {
        forall o | o in NodeDescriptors(filter) ensures o in done' {
          var m :| 0 <= m < |children| && o in Own(children[m]);
          assert children[m].Simple?;
        }
      }
    }
  }

  /**
   * `GetFilters`: folds every simple descriptor of the request, including a
   * composite's children, into one conjunction. A descriptor that appears
   * twice is translated twice; the second time finds its member type set.
   */
  method GetFilters(env: Env, filters: seq<FilterNode>) returns (r: Result<Option<FilterDefinition>>)
    modifies Reached(filters)
    ensures r == Filters(env, old(Views(filters)))
    ensures forall o :: o in Reached(filters) ==> Touched(env, o, old(o.State()))
    ensures r.Ok? ==> forall o :: o in Reached(filters) ==> o.State() == Translate(env, old(o.State())).after
  {
    ghost var initial, views := Snapshot(filters);
    ghost var done: set<FilterDescriptor> := {};
    ghost var expected := Filters(env, views);
    FoldNodesIsCombine(env, None, views);
    var fd: Option<FilterDefinition> := None;
    var i := 0;
    while i < |filters|
      invariant 0 <= i <= |filters|
      invariant expected == FoldNodes(env, fd, views[i..])
      invariant done <= initial.Keys
      invariant AllSettled(env, initial) && AllTranslated(env, initial, done)
      invariant Covered(filters, i, done)
    {
      assert NodeDescriptors(filters[i]) <= initial.Keys;
      FoldNodesStep(env, fd, views, i);
      var added;
      ghost var before := done;
      added, done := AddNode(env, fd, filters[i], initial, done, views[i]);
      assert expected == ThenFoldNodes(env, added, views[i + 1..]);
      if added.Err? {
        return Err(added.error);
      }
      fd := added.value;
      CoveredStep(filters, i, before, done);
      i := i + 1;
    }
    AllNodesReached(filters, done);
    return Ok(fd);
  }

  // ----- The page -----

  /** What `GetPagedData` returns for a snapshot of the request's filters. */
  function PagedData<D(!new)>(env: Env, store: Store<D>, page: int32, pageSize: int32,
                              sorts: seq<SortDescriptor>, views: seq<NodeView>): Result<DataSourceResult<D>>
    requires PageInRange(page, pageSize)
  {
    match Filters(env, views)
    case Err(e) => Err(e)
    case Ok(filter) =>
      var total := Count(store, filter);
      if total > 0x7FFF_FFFF then Err(Overflow(total))
      else
        var data := Find(store, filter, GetSortDefinition(sorts), Skip(page, pageSize) as nat, pageSize as nat);
        Ok(DataSourceResult(data, total as int32))
  }

  /**
   * `GetPagedData`: the sort, the skip, the filter; then the bounded fetch
   * and the unbounded count, both with the same filter.
   */
  method GetPagedData<D(!new)>(env: Env, request: DataSourceRequest, store: Store<D>)
    returns (r: Result<DataSourceResult<D>>)
    requires PageInRange(request.page, request.pageSize)
    modifies Reached(request.filters)
    ensures r == PagedData(env, store, request.page, request.pageSize, request.sorts, old(Views(request.filters)))
    ensures forall o :: o in Reached(request.filters) ==> Touched(env, o, old(o.State()))
    ensures Filters(env, old(Views(request.filters))).Ok? ==>
              forall o :: o in Reached(request.filters) ==> o.State() == Translate(env, old(o.State())).after
  {
    var sort := GetSortDefinition(request.sorts);
    var skip := Wrap(request.page as int - 1);
    if request.page > 1 {
      skip := Wrap(skip as int * request.pageSize as int);
    }
    assert skip == Skip(request.page, request.pageSize);
    var filter := GetFilters(env, request.filters);
    if filter.Err? {
      return Err(filter.error);
    }
    var data: seq<D>;
    var total: nat;
    if filter.value.None? {
      data := Find(store, None, sort, skip as nat, request.pageSize as nat);
      total := Count(store, None);
    } else {
      data := Find(store, filter.value, sort, skip as nat, request.pageSize as nat);
      total := Count(store, filter.value);
    }
    if total > 0x7FFF_FFFF {
      return Err(Overflow(total));
    }
    return Ok(DataSourceResult(data, total as int32));
  }
}
