/**
 * What the translator promises, stated about the model in `MongoHelper`:
 * sort selection, paging, the shape and meaning of the combined filter,
 * the operator mapping and member-type resolution, and the page itself.
 */
module MongoHelperProperties {
  import opened Optional
  import opened Kendo
  import opened Failures
  import opened PropertyPath
  import opened Mongo
  import opened MongoHelper

  // ----- Sorting -----

  /** Only the first sort descriptor matters: appending more never changes the sort. */
  lemma SortIgnoresLaterDescriptors(sorts: seq<SortDescriptor>, more: seq<SortDescriptor>)
    requires sorts != []
    ensures GetSortDefinition(sorts + more) == GetSortDefinition(sorts)
  {
    assert (sorts + more)[0] == sorts[0];
  }

  // ----- Paging -----

  /** From the first page on, the skip is the number of rows on the earlier pages. */
  lemma SkipCountsEarlierPages(page: int32, pageSize: int32)
    requires PageInRange(page, pageSize)
    ensures Skip(page, pageSize) as int == (page as int - 1) * pageSize as int
  {
  }

  /** Before the first page, the skip is `Page - 1`, negative except where it wraps around. */
  lemma SkipBeforeFirstPage(page: int32, pageSize: int32)
    requires page < 1
    ensures page > -0x8000_0000 ==> Skip(page, pageSize) as int == page as int - 1 < 0
    ensures page == -0x8000_0000 ==> Skip(page, pageSize) == 0x7FFF_FFFF
  {
  }

  /** Large enough pages overflow the unchecked multiplication into a negative skip. */
  lemma SkipOverflows()
    ensures Skip(46342, 46341) < 0
    ensures (46342 - 1) * 46341 > 0x7FFF_FFFF
  {
    assert Wrap(46341 * 46341) as int == 46341 * 46341 - 0x1_0000_0000;
  }

  // ----- One descriptor -----

  /** The four comparison operators map to their own predicate, on the member, with the value. */
  lemma ComparisonOperators(d: DescriptorState)
    ensures d.operator == IsEqualTo ==> MapOperator(d) == Ok(Eq(d.member, d.value))
    ensures d.operator == IsNotEqualTo ==> MapOperator(d) == Ok(Ne(d.member, d.value))
    ensures d.operator == IsGreaterThanOrEqualTo ==> MapOperator(d) == Ok(Gte(d.member, d.value))
    ensures d.operator == IsLessThanOrEqualTo ==> MapOperator(d) == Ok(Lte(d.member, d.value))
  {
  }

  /** Stripping the delimiters off a pattern `MapOperator` built gives back the value's text, unescaped. */
  lemma PatternsEmbedValueVerbatim(d: DescriptorState)
    requires d.operator == Contains || d.operator == StartsWith
    ensures MapOperator(d).Ok? && MapOperator(d).value.Regex?
    ensures var p := MapOperator(d).value.pattern;
            var open := if d.operator == Contains then "/" else "/^";
            |p| == |open| + |d.value.Concatenated()| + 1 &&
            p[..|open|] == open && p[|p| - 1] == '/' &&
            p[|open|..|p| - 1] == d.value.Concatenated()
  {
    var p := MapOperator(d).value.pattern;
    var open := if d.operator == Contains then "/" else "/^";
    assert p == open + d.value.Concatenated() + "/";
  }

  /** With no escaping, `Contains` on a value starting with `^` builds the very filter `StartsWith` builds. */
  lemma UnescapedCaretCollides(member: string, text: string)
    ensures MapOperator(DescriptorState(member, Contains, Obj("System.String", "^" + text), None)) ==
            MapOperator(DescriptorState(member, StartsWith, Obj("System.String", text), None))
  {
    assert "/" + ("^" + text) + "/" == "/^" + text + "/";
  }

  /** Every other operator fails, and the message names it. */
  lemma UnsupportedOperatorNamed(d: DescriptorState)
    requires d.operator !in SupportedOperators
    ensures MapOperator(d) == Err(NotImplemented(d.operator))
    ensures var m := NotImplemented(d.operator).Message();
            m[..21] == "The Telerik Operator " && m[21..21 + |d.operator.Name()|] == d.operator.Name()
  {
    var m := NotImplemented(d.operator).Message();
    var name := d.operator.Name();
    assert m == "The Telerik Operator " + name + " has not been implemented. Add it to the GetFilter() switch.";
  }

  /**
   * Resolution runs only for a descriptor without a member type. It writes
   * the type the member path leads to, then the converted value, back into
   * the descriptor; a missing property or a failed conversion is the outcome.
   */
  lemma ResolutionWritesBack(env: Env, d: DescriptorState)
    requires d.memberType.None?
    ensures FollowPath(env.schema, env.root, d.member).Err? ==>
              Translate(env, d) == Translation(Err(FollowPath(env.schema, env.root, d.member).error), d)
    ensures FollowPath(env.schema, env.root, d.member).Ok? ==>
              var t := FollowPath(env.schema, env.root, d.member).value;
              Translate(env, d).after.memberType == Some(t) &&
              (env.changeType(d.value, t).None? ==>
                 Translate(env, d).outcome == Err(ConversionFailed(d.value, t)) && Translate(env, d).after.value == d.value) &&
              (env.changeType(d.value, t).Some? ==>
                 Translate(env, d).after.value == env.changeType(d.value, t).value &&
                 Translate(env, d).outcome == MapOperator(Translate(env, d).after))
  {
  }

  // ----- The combined filter -----

  /** The leaves of a conjunction, left to right. */
  function Conjuncts(f: FilterDefinition): (cs: seq<FilterDefinition>)
    ensures |cs| >= 1
    ensures forall i :: 0 <= i < |cs| ==> !cs[i].And?
  {
    match f
    case And(l, r) => Conjuncts(l) + Conjuncts(r)
    case _ => [f]
  }

  lemma {:induction false} ConjoinConjuncts(a: FilterDefinition, fs: seq<FilterDefinition>)
    requires forall i :: 0 <= i < |fs| ==> !fs[i].And?
    ensures Conjuncts(Conjoin(Some(a), fs).value) == Conjuncts(a) + fs
    decreases |fs|
  {
    if fs != [] {
      var next := FilterDefinition.And(a, fs[0]);
      ConjoinConjuncts(next, fs[1..]);
      assert Conjuncts(next) == Conjuncts(a) + [fs[0]];
      assert fs == [fs[0]] + fs[1..];
    }
  }

  /**
   * Appending one more filter ANDs it onto what was there: the fold is to the
   * left, `((f1 & f2) & f3)`, and the first filter starts it on its own.
   */
  lemma {:induction false} ConjoinSnoc(acc: Option<FilterDefinition>, fs: seq<FilterDefinition>, f: FilterDefinition)
    ensures Conjoin(acc, fs + [f]) == Some(if Conjoin(acc, fs).None? then f else FilterDefinition.And(Conjoin(acc, fs).value, f))
  {
    ConjoinAppend(acc, fs, [f]);
    assert [f][1..] == [];
  }

  /** Nothing to fold, and only then, gives the null filter that matches every document. */
  lemma NoFiltersMeansNull(env: Env, views: seq<NodeView>)
    ensures Filters(env, views) == Ok(None) <==> Flatten(views) == Visit([], false)
  {
    if Filters(env, views) == Ok(None) {
      var fs := TranslateAll(env, Flatten(views).descriptors).value;
      assert Conjoin(None, fs).None?;
    }
  }

  /** A combined filter is the conjunction of the translated simple filters, in request order. */
  lemma FiltersAreConjunction(env: Env, views: seq<NodeView>, f: FilterDefinition)
    requires Filters(env, views) == Ok(Some(f))
    ensures !Flatten(views).castFails && TranslateAll(env, Flatten(views).descriptors).Ok?
    ensures Conjuncts(f) == TranslateAll(env, Flatten(views).descriptors).value
  {
    var ds := Flatten(views).descriptors;
    var fs := TranslateAll(env, ds).value;
    assert fs != [];
    forall i | 0 <= i < |fs| ensures !fs[i].And? {
      assert Translate(env, ds[i]).outcome == Ok(fs[i]);
    }
    assert Conjoin(None, fs) == Conjoin(Some(fs[0]), fs[1..]);
    ConjoinConjuncts(fs[0], fs[1..]);
    assert fs == [fs[0]] + fs[1..];
  }

  /** A document passes a conjunction exactly when it passes each of the conjoined filters. */
  lemma {:induction false} ConjoinHolds<D(!new)>(store: Store<D>, acc: Option<FilterDefinition>, fs: seq<FilterDefinition>, doc: D)
    ensures Selects(store, Conjoin(acc, fs), doc) <==>
            Selects(store, acc, doc) && forall i :: 0 <= i < |fs| ==> Holds(store, fs[i], doc)
    decreases |fs|
  {
    if fs != [] {
      ConjoinHolds(store, Some(Accumulate(acc, fs[0])), fs[1..], doc);
      assert forall i :: 1 <= i < |fs| ==> fs[i] == fs[1..][i - 1];
    }
  }

  /** The combined filter selects a document exactly when every translated filter does. */
  lemma FiltersMeaning<D(!new)>(env: Env, views: seq<NodeView>, store: Store<D>, doc: D)
    requires Filters(env, views).Ok?
    ensures TranslateAll(env, Flatten(views).descriptors).Ok?
    ensures var fs := TranslateAll(env, Flatten(views).descriptors).value;
            Selects(store, Filters(env, views).value, doc) <==> forall i :: 0 <= i < |fs| ==> Holds(store, fs[i], doc)
  {
    ConjoinHolds(store, None, TranslateAll(env, Flatten(views).descriptors).value, doc);
  }

  /** The walk over two lists of nodes is the walk over the first, then, unless a cast failed, over the second. */
  lemma {:induction false} FlattenAppend(a: seq<NodeView>, b: seq<NodeView>)
    ensures Flatten(a + b) ==
            if Flatten(a).castFails then Flatten(a)
            else Visit(Flatten(a).descriptors + Flatten(b).descriptors, Flatten(b).castFails)
    decreases |a|
  {
    if a == [] {
      assert a + b == b;
    } else {
      assert (a + b)[0] == a[0] && (a + b)[1..] == a[1..] + b;
      FlattenAppend(a[1..], b);
      match a[0]
      case SimpleView(d) =>
        assert [d] + (Flatten(a[1..]).descriptors + Flatten(b).descriptors) ==
               ([d] + Flatten(a[1..]).descriptors) + Flatten(b).descriptors;
      case CompositeView(_, children) =>
        var head := VisitChildren(children);
        assert head.descriptors + (Flatten(a[1..]).descriptors + Flatten(b).descriptors) ==
               (head.descriptors + Flatten(a[1..]).descriptors) + Flatten(b).descriptors;
    }
  }

  /** A composite's logical operator plays no part: AND and OR composites are walked alike. */
  lemma LogicalOperatorIgnored(env: Env, pre: seq<NodeView>, children: seq<ChildView>, post: seq<NodeView>)
    ensures Filters(env, pre + [CompositeView(Or, children)] + post) ==
            Filters(env, pre + [CompositeView(FilterCompositionLogicalOperator.And, children)] + post)
  {
    FlattenAppend(pre, [CompositeView(Or, children)] + post);
    FlattenAppend(pre, [CompositeView(FilterCompositionLogicalOperator.And, children)] + post);
    assert pre + [CompositeView(Or, children)] + post == pre + ([CompositeView(Or, children)] + post);
    assert pre + [CompositeView(FilterCompositionLogicalOperator.And, children)] + post ==
           pre + ([CompositeView(FilterCompositionLogicalOperator.And, children)] + post);
  }

  /** Simple children, and top-level simple descriptors, are walked in order. */
  lemma {:induction false} SimpleWalks(ds: seq<DescriptorState>)
    ensures VisitChildren(seq(|ds|, i requires 0 <= i < |ds| => SimpleChild(ds[i]))) == Visit(ds, false)
    ensures Flatten(seq(|ds|, i requires 0 <= i < |ds| => SimpleView(ds[i]))) == Visit(ds, false)
    decreases |ds|
  {
    if ds != [] {
      SimpleWalks(ds[1..]);
      var cs := seq(|ds|, i requires 0 <= i < |ds| => SimpleChild(ds[i]));
      var vs := seq(|ds|, i requires 0 <= i < |ds| => SimpleView(ds[i]));
      assert cs[1..] == seq(|ds[1..]|, i requires 0 <= i < |ds[1..]| => SimpleChild(ds[1..][i]));
      assert vs[1..] == seq(|ds[1..]|, i requires 0 <= i < |ds[1..]| => SimpleView(ds[1..][i]));
      assert ds == [ds[0]] + ds[1..];
    }
  }

  /** A composite of simple descriptors is spliced into the conjunction as if they stood at the top level. */
  lemma CompositeSplices(env: Env, pre: seq<NodeView>, op: FilterCompositionLogicalOperator,
                         ds: seq<DescriptorState>, post: seq<NodeView>)
    ensures Filters(env, pre + [CompositeView(op, seq(|ds|, i requires 0 <= i < |ds| => SimpleChild(ds[i])))] + post) ==
            Filters(env, pre + seq(|ds|, i requires 0 <= i < |ds| => SimpleView(ds[i])) + post)
  {
    var composite := CompositeView(op, seq(|ds|, i requires 0 <= i < |ds| => SimpleChild(ds[i])));
    var simples := seq(|ds|, i requires 0 <= i < |ds| => SimpleView(ds[i]));
    SimpleWalks(ds);
    FlattenAppend([composite], post);
    FlattenAppend(simples, post);
    FlattenAppend(pre, [composite] + post);
    FlattenAppend(pre, simples + post);
    assert Flatten([composite]) == Visit(ds, false) by {
      assert ds + [] == ds;
    }
    assert pre + [composite] + post == pre + ([composite] + post);
    assert pre + simples + post == pre + (simples + post);
  }

  /** A top-level list holds a composite with a composite among its children. */
  ghost predicate HasNestedComposite(views: seq<NodeView>) {
    exists k, j :: 0 <= k < |views| && views[k].CompositeView? && 0 <= j < |views[k].children| &&
                   views[k].children[j] == NestedComposite
  }

  lemma {:induction false} ChildrenCastFails(children: seq<ChildView>)
    ensures VisitChildren(children).castFails <==> NestedComposite in children
    decreases |children|
  {
    if children != [] {
      ChildrenCastFails(children[1..]);
      assert children == [children[0]] + children[1..];
    }
  }

  lemma {:induction false} FlattenCastFails(views: seq<NodeView>)
    ensures Flatten(views).castFails <==> HasNestedComposite(views)
    decreases |views|
  {
    if views != [] {
      FlattenCastFails(views[1..]);
      if HasNestedComposite(views[1..]) {
        var k, j :| 0 <= k < |views[1..]| && views[1..][k].CompositeView? && 0 <= j < |views[1..][k].children| &&
                    views[1..][k].children[j] == NestedComposite;
        assert views[k + 1] == views[1..][k];
      }
      if HasNestedComposite(views) {
        var k, j :| 0 <= k < |views| && views[k].CompositeView? && 0 <= j < |views[k].children| &&
                    views[k].children[j] == NestedComposite;
        if k > 0 {
          assert views[1..][k - 1] == views[k];
        }
      }
      if views[0].CompositeView? {
        ChildrenCastFails(views[0].children);
        if NestedComposite in views[0].children {
          var j :| 0 <= j < |views[0].children| && views[0].children[j] == NestedComposite;
        }
      }
    }
  }

  /**
   * A composite nested inside a composite makes the walk fail the cast; when
   * no descriptor visited before it fails, the outcome is the cast failure.
   */
  lemma NestedCompositeFails(env: Env, views: seq<NodeView>)
    requires HasNestedComposite(views)
    ensures Filters(env, views).Err?
    ensures TranslateAll(env, Flatten(views).descriptors).Ok? ==> Filters(env, views) == Err(InvalidCast)
  {
    FlattenCastFails(views);
  }

  /** Without nested composites every simple descriptor reached is translated and kept. */
  lemma FlatRequestsTranslateFully(env: Env, views: seq<NodeView>)
    requires !HasNestedComposite(views)
    ensures Filters(env, views).Ok? <==> TranslateAll(env, Flatten(views).descriptors).Ok?
  {
    FlattenCastFails(views);
  }

  // ----- The page -----

  /**
   * The page is the slice of the sorted matches that starts after the rows of
   * the earlier pages and holds at most a page's worth; the total counts every
   * match, and both use the same filter.
   */
  lemma PageIsSliceOfMatches<D(!new)>(env: Env, store: Store<D>, page: int32, pageSize: int32,
                                      sorts: seq<SortDescriptor>, views: seq<NodeView>)
    requires PageInRange(page, pageSize) && store.OrderPermutes()
    requires Filters(env, views).Ok? && Count(store, Filters(env, views).value) <= 0x7FFF_FFFF
    ensures PagedData(env, store, page, pageSize, sorts, views).Ok?
    ensures var result := PagedData(env, store, page, pageSize, sorts, views).value;
            var ordered := store.order(GetSortDefinition(sorts), Matching(store, Filters(env, views).value));
            var lo := (page as int - 1) * pageSize as int;
            result.total as int == |ordered| == Count(store, Filters(env, views).value) &&
            (lo >= |ordered| ==> result.data == []) &&
            (lo < |ordered| ==> result.data == ordered[lo..if lo + pageSize as int <= |ordered| then lo + pageSize as int else |ordered|])
  {
    var filter := Filters(env, views).value;
    var ordered := store.order(GetSortDefinition(sorts), Matching(store, filter));
    assert |multiset(ordered)| == |multiset(Matching(store, filter))|;
    SkipCountsEarlierPages(page, pageSize);
  }

  /** A page never holds more than the page size, nor more than the total, and holds only matches. */
  lemma PageBounds<D(!new)>(env: Env, store: Store<D>, page: int32, pageSize: int32,
                            sorts: seq<SortDescriptor>, views: seq<NodeView>)
    requires PageInRange(page, pageSize) && store.OrderPermutes()
    requires PagedData(env, store, page, pageSize, sorts, views).Ok?
    ensures var result := PagedData(env, store, page, pageSize, sorts, views).value;
            |result.data| <= pageSize as int && |result.data| <= result.total as int &&
            forall i :: 0 <= i < |result.data| ==> Selects(store, Filters(env, views).value, result.data[i])
  {
    var filter := Filters(env, views).value;
    var matches := Matching(store, filter);
    var ordered := store.order(GetSortDefinition(sorts), matches);
    var data := PagedData(env, store, page, pageSize, sorts, views).value.data;
    assert |multiset(ordered)| == |multiset(matches)|;
    forall i | 0 <= i < |data| ensures Selects(store, filter, data[i]) {
      var x := data[i];
      assert x in multiset(ordered);
      var k :| 0 <= k < |matches| && matches[k] == x;
    }
  }

  /** The total must fit a C# `int`: a larger count is the overflow `Convert.ToInt32` throws. */
  lemma TotalOverflowFails<D(!new)>(env: Env, store: Store<D>, page: int32, pageSize: int32,
                                    sorts: seq<SortDescriptor>, views: seq<NodeView>)
    requires PageInRange(page, pageSize)
    requires Filters(env, views).Ok?
    ensures PagedData(env, store, page, pageSize, sorts, views).Err? <==> Count(store, Filters(env, views).value) > 0x7FFF_FFFF
  {
  }

  /** Twenty-five matches at ten a page: the third page holds the last five. */
  lemma LastPagePartial<D(!new)>(env: Env, store: Store<D>, sorts: seq<SortDescriptor>, views: seq<NodeView>)
    requires store.OrderPermutes()
    requires Filters(env, views).Ok? && Count(store, Filters(env, views).value) == 25
    ensures PagedData(env, store, 3, 10, sorts, views).Ok?
    ensures |PagedData(env, store, 3, 10, sorts, views).value.data| == 5
    ensures PagedData(env, store, 3, 10, sorts, views).value.total == 25
  {
    PageIsSliceOfMatches(env, store, 3, 10, sorts, views);
  }
}
