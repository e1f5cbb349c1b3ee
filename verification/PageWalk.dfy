/**
  Listing page after page. Each request is answered on its own, possibly from the same objects in
  another order; together the pages give every matching object exactly once, in sort order.
 */
module PageWalk {
  import opened Common
  import opened Query
  import opened Sorting
  import opened ListPipeline
  import opened ObjectMeta

  /** The same collection: nil entries aside, every object equally often. */
  ghost predicate SameObjects(s: seq<Object>, t: seq<Object>) {
    forall o | !IsNil(o) :: multiset(s)[o] == multiset(t)[o]
  }

  lemma SameObjectsMatch(filter: Option<FilterFunc>, filters: map<Field, string>, s: seq<Object>, t: seq<Object>)
    requires SameObjects(s, t)
    ensures Permutes(Matching(filter, filters, s), Matching(filter, filters, t))
  {
    forall o ensures multiset(Matching(filter, filters, s))[o] == multiset(Matching(filter, filters, t))[o] {
      MatchingCount(filter, filters, s, o);
      MatchingCount(filter, filters, t, o);
    }
  }

  /** The keys decide the order of everything that matches. */
  ghost predicate Decided(h: Handler, q: Spec, objects: seq<Object>) {
    var chosen := Matching(h.filter, q.filters, objects);
    h.compare.Some? && NoDup(chosen) && Orders(LessFor(h.compare.value, q.sortBy, q.ascending), chosen)
  }

  /** The sorted order is the same however the objects arrive. */
  lemma OrderDetermined(h: Handler, q: Spec, q': Spec, s: seq<Object>, t: seq<Object>, order: seq<Object>,
                        order': seq<Object>)
    requires q' == q.(page := q'.page) && SameObjects(s, t) && Decided(h, q, s)
    requires Sorts(h, q, s, order) && Sorts(h, q', t, order')
    ensures order == order'
  {
    var less := LessFor(h.compare.value, q.sortBy, q.ascending);
    SameObjectsMatch(h.filter, q.filters, s, t);
    var chosen, chosen' := Matching(h.filter, q.filters, s), Matching(h.filter, q.filters, t);
    PermutesNoDup(chosen, chosen');
    PermutesOrders(less, chosen, chosen');
    PermutesNoDup(chosen, order);
    PermutesOrders(less, chosen, order);
    SortedUnique(less, order, order');
  }

  /** Two listings of one collection with the same query give the same answer. */
  lemma ListingDetermined(h: Handler, q: Spec, s: seq<Object>, t: seq<Object>, r: Option<ListResult>,
                          r': Option<ListResult>)
    requires SameObjects(s, t) && Decided(h, q, s)
    requires Lists(h, q, s, r) && Lists(h, q, t, r')
    ensures r == r'
  {
    var order :| Sorts(h, q, s, order) && Answers(h, q, order, r);
    var order' :| Sorts(h, q, t, order') && Answers(h, q, order', r');
    OrderDetermined(h, q, q, s, t, order, order');
  }

  /** ListAnalysisTask puts as many nil interfaces before its tasks as there are tasks: no effect. */
  lemma NilsChangeNothing(h: Handler, q: Spec, nils: seq<Object>, tasks: seq<Object>, r: Option<ListResult>)
    requires forall i | 0 <= i < |nils| :: IsNil(nils[i])
    ensures Lists(h, q, nils + tasks, r) <==> Lists(h, q, tasks, r)
  {
    MatchingAppend(h.filter, q.filters, nils, tasks);
    NothingFromNils(h, q, nils);
    assert Matching(h.filter, q.filters, nils + tasks) == Matching(h.filter, q.filters, tasks);
    forall order ensures Sorts(h, q, nils + tasks, order) <==> Sorts(h, q, tasks, order) {
    }
  }

  lemma NothingFromNils(h: Handler, q: Spec, nils: seq<Object>)
    requires forall i | 0 <= i < |nils| :: IsNil(nils[i])
    ensures Matching(h.filter, q.filters, nils) == []
  {
  }

  // ----- Walking

  /** The query for page `p` (from 1) of size `limit`, as ParseQueryParameter builds it. */
  function PageSpec(base: Spec, limit: Int64, p: Int64): Spec
    requires p >= 1
  {
    base.(page := NewPagination(limit, Wrap((p - 1) * limit)))
  }

  lemma PageRequest(ps: Parsers, req: Request, limit: Int64, p: Int64)
    requires QueryParameter(req, "page") != "" && ps.atoi(QueryParameter(req, "page")) == Some(p) && p >= 1
    requires ps.atoi(QueryParameter(req, "limit")) == Some(limit) && limit >= -1
    ensures forall base: Spec :: base.(page := PaginationOf(ps, req)) == PageSpec(base, limit, p)
  {
  }

  function Items(rs: seq<Option<ListResult>>): seq<Any> {
    if rs == [] then []
    else Items(rs[..|rs| - 1]) + (if rs[|rs| - 1].Some? then rs[|rs| - 1].value.items else [])
  }

  function Min(m: int, n: int): int {
    if m < n then m else n
  }

  /** The contents of one page of a sorted order. */
  lemma PageAt(h: Handler, q: Spec, order: seq<Object>, r: Option<ListResult>)
    requires q.page.limit > 0 && q.page.offset >= 0 && |order| + q.page.limit <= MAX_INT && Answers(h, q, order, r)
    ensures var from := Min(q.page.offset, |order|);
            var to := Min(q.page.offset + q.page.limit, |order|);
            r == Some(ListResult(Transformed(order[from..to], Transforms(h.transforms)), |order|))
  {
    PaginationInBoundsIff(q.page, |order|);
    if q.page.offset > |order| {
      assert order[0..0] == order[|order|..|order|];
    } else {
      assert Wrap(q.page.offset + q.page.limit) == q.page.offset + q.page.limit;
    }
  }

  /** Without a comparator the matching objects are listed in the order in which they came. */
  lemma UnsortedPage(h: Handler, q: Spec, objects: seq<Object>, r: Option<ListResult>)
    requires h.compare.None? && Lists(h, q, objects, r)
    requires q.page.limit > 0 && q.page.offset >= 0
    requires |Matching(h.filter, q.filters, objects)| + q.page.limit <= MAX_INT
    ensures var all := Matching(h.filter, q.filters, objects);
            var from := Min(q.page.offset, |all|);
            var to := Min(q.page.offset + q.page.limit, |all|);
            r == Some(ListResult(Transformed(all[from..to], Transforms(h.transforms)), |all|))
  {
    PageAt(h, q, Matching(h.filter, q.filters, objects), r);
  }

  /** Page `p` holds the objects from (p - 1) * limit up to p * limit. */
  lemma PageContents(h: Handler, base: Spec, limit: Int64, p: Int64, order: seq<Object>, r: Option<ListResult>)
    requires limit > 0 && p >= 1 && |order| + limit <= MAX_INT && (p - 1) * limit <= MAX_INT
    requires Answers(h, PageSpec(base, limit, p), order, r)
    ensures r.Some? && r.value.total == |order|
    ensures var from := Min((p - 1) * limit, |order|);
            0 <= from && r.value.items == Transformed(order[from..Min(p * limit, |order|)], Transforms(h.transforms))
  {
    hide Answers, Transformed;
    PageOffset(p, limit);
    var off := (p - 1) * limit;
    assert p * limit == off + limit;
    var q := PageSpec(base, limit, p);
    assert q.page.limit == limit && q.page.offset == off;
    PageAt(h, q, order, r);
  }

  ghost predicate Empty(r: Option<ListResult>) {
    r.Some? && r.value.items == []
  }

  /** Answers to pages 1, 2, ... of one collection, asked for until the first empty page. */
  ghost predicate Walk(h: Handler, base: Spec, limit: Int64, objects: seq<seq<Object>>, rs: seq<Option<ListResult>>) {
    && 0 < |rs| == |objects| <= MAX_INT
    && (forall i | 0 <= i < |rs| :: SameObjects(objects[0], objects[i]))
    && (forall i | 0 <= i < |rs| :: Lists(h, PageSpec(base, limit, i + 1), objects[i], rs[i]))
    && (forall i | 0 <= i < |rs| - 1 :: !Empty(rs[i]))
    && Empty(rs[|rs| - 1])
  }

  /** Every page of a walk is cut out of one and the same order. */
  ghost predicate OneOrder(h: Handler, base: Spec, limit: Int64, rs: seq<Option<ListResult>>, order: seq<Object>) {
    |rs| <= MAX_INT && forall i | 0 <= i < |rs| :: Answers(h, PageSpec(base, limit, i + 1), order, rs[i])
  }

  lemma AppendPage(order: seq<Object>, from: nat, to: nat, fs: seq<TransformFunc>)
    requires from <= to <= |order| && fs != []
    ensures Transformed(order[..from], fs) + Transformed(order[from..to], fs) == Transformed(order[..to], fs)
  {
    assert order[..to] == order[..from] + order[from..to];
  }

  lemma {:induction false} PagesSoFar(h: Handler, base: Spec, limit: Int64, rs: seq<Option<ListResult>>,
                                      order: seq<Object>)
    requires limit > 0 && |order| + limit <= MAX_INT && OneOrder(h, base, limit, rs, order)
    requires forall i | 0 <= i < |rs| - 1 :: !Empty(rs[i])
    ensures |rs| > 0 ==> (|rs| - 1) * limit <= MAX_INT
    ensures forall i | 0 <= i < |rs| :: rs[i].Some?
    ensures |rs| * limit >= 0
    ensures Items(rs) == Transformed(order[..Min(|rs| * limit, |order|)], Transforms(h.transforms))
    ensures |rs| > 1 ==> (|rs| - 2) * limit < |order|
    ensures |rs| > 0 ==> (Empty(rs[|rs| - 1]) <==> (|rs| - 1) * limit >= |order|)
    ensures |rs| > 0 && Empty(rs[|rs| - 1]) ==> Items(rs) == Transformed(order, Transforms(h.transforms))
  {
    hide Answers, PageSpec, Transformed;
    if rs == [] {
      assert order[..0] == [];
    } else {
      var init := rs[..|rs| - 1];
      var k := |init|;
      assert forall i | 0 <= i < k :: init[i] == rs[i];
      PagesSoFar(h, base, limit, init, order);
      if k > 0 {
        assert !Empty(init[k - 1]);
        assert k * limit == (k - 1) * limit + limit;
      }
      PageContents(h, base, limit, k + 1, order, rs[k]);
      assert (k + 1) * limit == k * limit + limit;
      assert order[..|order|] == order;
      AppendPage(order, Min(k * limit, |order|), Min((k + 1) * limit, |order|), Transforms(h.transforms));
    }
  }

  lemma DecidedPage(h: Handler, q: Spec, q': Spec, objects: seq<Object>)
    requires q' == q.(page := q'.page) && Decided(h, q, objects)
    ensures Decided(h, q', objects)
  {
  }

  lemma WalkInOneOrder(h: Handler, base: Spec, limit: Int64, objects: seq<seq<Object>>, rs: seq<Option<ListResult>>)
    requires Walk(h, base, limit, objects, rs) && Decided(h, base, objects[0])
    ensures exists order :: Sorts(h, PageSpec(base, limit, 1), objects[0], order) && OneOrder(h, base, limit, rs, order)
  {
    hide Sorts, Answers, Decided, SameObjects, Empty;
    var q := PageSpec(base, limit, 1);
    DecidedPage(h, base, q, objects[0]);
    assert Lists(h, q, objects[0], rs[0]);
    var order :| Sorts(h, q, objects[0], order) && Answers(h, q, order, rs[0]);
    forall i | 0 <= i < |rs| ensures Answers(h, PageSpec(base, limit, i + 1), order, rs[i]) {
      var q' := PageSpec(base, limit, i + 1);
      assert Lists(h, q', objects[i], rs[i]);
      var order' :| Sorts(h, q', objects[i], order') && Answers(h, q', order', rs[i]);
      OrderDetermined(h, q, q', objects[0], objects[i], order, order');
    }
  }

  /** The items are what the transforms make of all matching objects, each once and in sort order. */
  ghost predicate AllOnce(h: Handler, base: Spec, objects: seq<Object>, items: seq<Any>) {
    && h.compare.Some?
    && exists order ::
         && Permutes(order, Matching(h.filter, base.filters, objects))
         && Sorted(LessFor(h.compare.value, base.sortBy, base.ascending), order)
         && items == Transformed(order, Transforms(h.transforms))
  }

  /**
    A walk loses and repeats nothing: the concatenated pages are all matching objects, each exactly
    once and in sort order, and the walk stops one page after the last object.
   */
  lemma WalkCompletes(h: Handler, base: Spec, limit: Int64, objects: seq<seq<Object>>, rs: seq<Option<ListResult>>)
    requires limit > 0 && Walk(h, base, limit, objects, rs) && Decided(h, base, objects[0])
    requires |Matching(h.filter, base.filters, objects[0])| + limit <= MAX_INT
    ensures var chosen := Matching(h.filter, base.filters, objects[0]);
            && AllOnce(h, base, objects[0], Items(rs))
            && (|rs| - 1) * limit >= |chosen|
            && (|rs| > 1 ==> (|rs| - 2) * limit < |chosen|)
  {
    var chosen := Matching(h.filter, base.filters, objects[0]);
    WalkInOneOrder(h, base, limit, objects, rs);
    var order :| Sorts(h, PageSpec(base, limit, 1), objects[0], order) && OneOrder(h, base, limit, rs, order);
    assert |order| == |multiset(order)| == |multiset(chosen)| == |chosen|;
    PagesSoFar(h, base, limit, rs, order);
    assert Permutes(order, chosen);
  }

  /** The walk with the repository's own comparator and distinct sort keys. */
  lemma DefaultWalkCompletes(h: Handler, base: Spec, limit: Int64, objects: seq<seq<Object>>,
                             rs: seq<Option<ListResult>>)
    requires limit > 0 && Walk(h, base, limit, objects, rs) && h.compare == Some(DEFAULT_COMPARE)
    requires var chosen := Matching(h.filter, base.filters, objects[0]);
             AllItems(chosen) && KeysDistinct(chosen, base.sortBy) && |chosen| + limit <= MAX_INT
    requires NonNil(h.transforms) == []
    ensures exists order ::
              && Permutes(order, Matching(h.filter, base.filters, objects[0]))
              && NoDup(order)
              && AllItems(order) && InDirection(order, base.sortBy, base.ascending)
              && |Items(rs)| == |order|
              && forall i | 0 <= i < |order| :: Items(rs)[i] == AnObject(order[i])
  {
    var chosen := Matching(h.filter, base.filters, objects[0]);
    DefaultOrdersIff(chosen, base.sortBy, base.ascending);
    WalkCompletes(h, base, limit, objects, rs);
    var order :|
      && Permutes(order, chosen)
      && Sorted(LessFor(h.compare.value, base.sortBy, base.ascending), order)
      && Items(rs) == Transformed(order, Transforms(h.transforms));
    PermutesNoDup(chosen, order);
    forall x | x in order ensures x in chosen {
      PermutesIn(order, chosen, x);
    }
    PermutesOrders(LessFor(DEFAULT_COMPARE, base.sortBy, base.ascending), chosen, order);
    DefaultOrdersIff(order, base.sortBy, base.ascending);
    DirectionMeaning(order, base.sortBy, base.ascending);
  }

  // ----- Which limits work

  lemma ZeroLimitPage(h: Handler, base: Spec, order: seq<Object>, r: Option<ListResult>)
    requires Answers(h, PageSpec(base, 0, 1), order, r)
    ensures r == Some(ListResult([], |order|))
  {
    assert PageSpec(base, 0, 1).page == Pagination(0, 0);
    assert order[0..0] == [];
  }

  /** With limit 0 a walk is one empty page. */
  lemma ZeroLimitStopsAtOnce(h: Handler, base: Spec, objects: seq<seq<Object>>, rs: seq<Option<ListResult>>)
    requires Walk(h, base, 0, objects, rs)
    ensures |rs| == 1 && Items(rs) == []
  {
    hide PageSpec, Answers, Sorts;
    assert Lists(h, PageSpec(base, 0, 1), objects[0], rs[0]);
    var order :| Answers(h, PageSpec(base, 0, 1), order, rs[0]);
    ZeroLimitPage(h, base, order, rs[0]);
    assert Empty(rs[0]) && rs[..0] == [] && Items([]) == [];
  }

  /** With limit -1 every page is the first ten objects. */
  lemma NegativeLimitPage(h: Handler, base: Spec, p: Int64, order: seq<Object>, r: Option<ListResult>)
    requires p >= 1 && Answers(h, PageSpec(base, -1, p), order, r)
    ensures r == Some(ListResult(Transformed(order[..Min(10, |order|)], Transforms(h.transforms)), |order|))
  {
    assert (p - 1) * -1 == 1 - p;
    assert PageSpec(base, -1, p).page == Pagination(DEFAULT_LIMIT, 0);
  }

  /** Hence with limit -1 a walk over objects that match never ends. */
  lemma NegativeLimitNeverEnds(h: Handler, base: Spec, objects: seq<seq<Object>>, rs: seq<Option<ListResult>>)
    requires objects != [] && Matching(h.filter, base.filters, objects[0]) != []
    ensures !Walk(h, base, -1, objects, rs)
  {
    if Walk(h, base, -1, objects, rs) {
      var i := |rs| - 1;
      var q := PageSpec(base, -1, i + 1);
      assert Lists(h, q, objects[i], rs[i]);
      var order :| Sorts(h, q, objects[i], order) && Answers(h, q, order, rs[i]);
      SameObjectsMatch(h.filter, base.filters, objects[0], objects[i]);
      SameLength(Matching(h.filter, base.filters, objects[0]), Matching(h.filter, base.filters, objects[i]));
      SameLength(order, Matching(h.filter, base.filters, objects[i]));
      NegativeLimitPage(h, base, i + 1, order, rs[i]);
    }
  }

  lemma SameLength<T>(s: seq<T>, t: seq<T>)
    requires Permutes(s, t)
    ensures |s| == |t|
  {
    assert |s| == |multiset(s)| && |t| == |multiset(t)|;
  }

  lemma NotTooMany(h: Handler, base: Spec, limit: Int64, order: seq<Object>, rs: seq<Option<ListResult>>)
    requires limit > 0 && |order| + limit <= MAX_INT && OneOrder(h, base, limit, rs, order)
    requires forall i | 0 <= i < |rs| :: !Empty(rs[i])
    ensures |rs| <= |order|
  {
    hide Answers, PageSpec, Transformed, Items, Empty;
    PagesSoFar(h, base, limit, rs, order);
    if |rs| > 0 {
      assert !Empty(rs[|rs| - 1]);
      AtLeast(|rs| - 1, limit);
    }
  }

  lemma AtLeast(k: nat, limit: int)
    requires limit > 0
    ensures k * limit >= k
  {
  }

  /** Asking for one more page until an empty one comes, which it does. */
  lemma {:induction false} WalkOn(h: Handler, base: Spec, limit: Int64, order: seq<Object>,
                                  init: seq<Option<ListResult>>)
      returns (rs: seq<Option<ListResult>>)
    requires limit > 0 && |order| + limit <= MAX_INT && OneOrder(h, base, limit, init, order)
    requires forall i | 0 <= i < |init| :: !Empty(init[i])
    ensures |rs| > 0 && OneOrder(h, base, limit, rs, order)
    ensures (forall i | 0 <= i < |rs| - 1 :: !Empty(rs[i])) && Empty(rs[|rs| - 1])
    decreases |order| + 1 - |init|
  {
    hide AnswerOf, PageSpec, Transformed, Items, Empty;
    NotTooMany(h, base, limit, order, init);
    var r := AnswerOf(h, PageSpec(base, limit, |init| + 1), order);
    rs := init + [r];
    if !Empty(r) {
      rs := WalkOn(h, base, limit, order, rs);
    }
  }

  /** A walk over `objects` that gives every matching object exactly once and in sort order. */
  ghost predicate FindsAll(h: Handler, base: Spec, limit: Int64, objects: seq<Object>) {
    exists arrivals, rs :: Walk(h, base, limit, [objects] + arrivals, rs) && AllOnce(h, base, objects, Items(rs))
  }

  lemma SortsPage(h: Handler, q: Spec, q': Spec, objects: seq<Object>, order: seq<Object>)
    requires q' == q.(page := q'.page) && Sorts(h, q, objects, order)
    ensures Sorts(h, q', objects, order)
  {
  }

  lemma {:induction false} WalkInOrder(h: Handler, base: Spec, limit: Int64, objects: seq<Object>, order: seq<Object>,
                                       rs: seq<Option<ListResult>>)
    requires Sorts(h, base, objects, order) && |rs| > 0 && OneOrder(h, base, limit, rs, order)
    requires (forall i | 0 <= i < |rs| - 1 :: !Empty(rs[i])) && Empty(rs[|rs| - 1])
    ensures Walk(h, base, limit, [objects] + seq(|rs| - 1, _ => objects), rs)
  {
    hide Sorts, Answers, Empty;
    forall i | 0 <= i < |rs| ensures Lists(h, PageSpec(base, limit, i + 1), objects, rs[i]) {
      SortsPage(h, base, PageSpec(base, limit, i + 1), objects, order);
    }
  }

  lemma PositiveLimitFindsAll(h: Handler, base: Spec, limit: Int64, objects: seq<Object>)
    requires limit > 0 && Decided(h, base, objects)
    requires |Matching(h.filter, base.filters, objects)| + limit <= MAX_INT
    ensures FindsAll(h, base, limit, objects)
  {
    var chosen := Matching(h.filter, base.filters, objects);
    var order := SortExists(LessFor(h.compare.value, base.sortBy, base.ascending), chosen);
    SameLength(order, chosen);
    var rs := WalkOn(h, base, limit, order, []);
    WalkInOrder(h, base, limit, objects, order, rs);
    WalkCompletes(h, base, limit, [objects] + seq(|rs| - 1, _ => objects), rs);
  }

  lemma NothingOnPage(h: Handler, base: Spec, limit: Int64)
    requires limit >= -1
    ensures AnswerOf(h, PageSpec(base, limit, 1), []) == Some(ListResult([], 0))
  {
    assert PageSpec(base, limit, 1).page.offset == 0;
  }

  lemma NothingToFind(h: Handler, base: Spec, limit: Int64, objects: seq<Object>)
    requires limit >= -1 && Decided(h, base, objects) && Matching(h.filter, base.filters, objects) == []
    ensures FindsAll(h, base, limit, objects)
  {
    hide AnswerOf, PageSpec, Matching, Walk;
    NothingOnPage(h, base, limit);
    var r := AnswerOf(h, PageSpec(base, limit, 1), []);
    WalkInOrder(h, base, limit, objects, [], [r]);
    assert [r][..0] == [] && Items([r]) == Items([]) + r.value.items == [];
    assert Permutes([], Matching(h.filter, base.filters, objects));
    assert Transformed([], Transforms(h.transforms)) == [];
    assert AllOnce(h, base, objects, []);
  }

  /**
    Exactly which limits work, among those a parsed query can hold: a walk finds everything if and
    only if the limit is positive or there is nothing to find. Limit 0 loses every object, and
    limit -1 never comes to an empty page.
   */
  lemma WalkFindsAllIff(h: Handler, base: Spec, limit: Int64, objects: seq<Object>)
    requires limit >= -1 && Decided(h, base, objects)
    requires |Matching(h.filter, base.filters, objects)| + limit <= MAX_INT
    ensures FindsAll(h, base, limit, objects) <==> limit > 0 || Matching(h.filter, base.filters, objects) == []
  {
    hide Walk, Matching, Items, AllOnce, Decided;
    if limit > 0 {
      PositiveLimitFindsAll(h, base, limit, objects);
    } else if Matching(h.filter, base.filters, objects) == [] {
      NothingToFind(h, base, limit, objects);
    } else if FindsAll(h, base, limit, objects) {
      var arrivals, rs :| Walk(h, base, limit, [objects] + arrivals, rs) && AllOnce(h, base, objects, Items(rs));
      if limit == 0 {
        ZeroLimitStopsAtOnce(h, base, [objects] + arrivals, rs);
        NotNothing(h, base, objects);
      } else {
        NegativeLimitNeverEnds(h, base, [objects] + arrivals, rs);
      }
    }
  }

  lemma NotNothing(h: Handler, base: Spec, objects: seq<Object>)
    requires AllOnce(h, base, objects, [])
    ensures Matching(h.filter, base.filters, objects) == []
  {
  }
}
