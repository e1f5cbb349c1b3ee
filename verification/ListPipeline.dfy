/** Filter, sort, paginate and transform: pkg/service/resources/v1alpha3/interface.go. */
module ListPipeline {
  import opened Common
  import opened Query
  import opened Sorting

  datatype Owner = Owner(uid: string, kind: string)

  datatype Meta = Meta(name: string, namespace: string, uid: string, created: int,
                       labels: map<string, string>, annotations: map<string, string>, owners: seq<Owner>)

  /** A runtime.Object: a nil interface, a typed nil pointer, one without object metadata, or one with it. */
  datatype Object = NilInterface | NilPointer | Bare(id: int) | Item(id: int, meta: Meta)

  predicate IsNil(o: Object) {
    o.NilInterface? || o.NilPointer?
  }

  type CompareFunc = (Object, Object, Field) -> bool
  type FilterFunc = (Object, Filter) -> bool
  type TransformFunc = Object -> Any

  /** What a transform returns: an object again, or anything else. */
  datatype Any = AnObject(o: Object) | Other(id: int)

  datatype ListResult = ListResult(items: seq<Any>, total: nat)

  // ----- Filtering

  predicate Selected(filter: Option<FilterFunc>, filters: map<Field, string>, o: Object) {
    filter.Some? ==> forall f | f in filters :: filter.value(o, Filter(f, filters[f]))
  }

  function Matching(filter: Option<FilterFunc>, filters: map<Field, string>, objects: seq<Object>): seq<Object> {
    if objects == [] then []
    else if !IsNil(objects[0]) && Selected(filter, filters, objects[0]) then
      [objects[0]] + Matching(filter, filters, objects[1..])
    else Matching(filter, filters, objects[1..])
  }

  lemma {:induction false} MatchingAppend(filter: Option<FilterFunc>, filters: map<Field, string>, s: seq<Object>,
                                          t: seq<Object>)
    ensures Matching(filter, filters, s + t) == Matching(filter, filters, s) + Matching(filter, filters, t)
  {
    if s == [] {
      assert s + t == t;
    } else {
      MatchingAppend(filter, filters, s[1..], t);
      assert (s + t)[1..] == s[1..] + t;
    }
  }

  /** How often an object is selected depends only on how often it was given. */
  lemma {:induction false} MatchingCount(filter: Option<FilterFunc>, filters: map<Field, string>,
                                         objects: seq<Object>, o: Object)
    ensures multiset(Matching(filter, filters, objects))[o]
         == if o != NilInterface && o != NilPointer
               && (filter.None? || forall f | f in filters :: filter.value(o, Filter(f, filters[f])))
            then multiset(objects)[o] else 0
  {
    if objects != [] {
      MatchingCount(filter, filters, objects[1..], o);
      assert objects == [objects[0]] + objects[1..];
    }
  }

  // ----- Transforming

  function NonNil(fs: seq<Option<TransformFunc>>): seq<TransformFunc> {
    if fs == [] then []
    else if fs[0].Some? then [fs[0].value] + NonNil(fs[1..])
    else NonNil(fs[1..])
  }

  function ApplyAll(o: Object, fs: seq<TransformFunc>): Any
    requires fs != []
    decreases |fs|
  {
    var x := fs[0](o);
    if |fs| == 1 then x
    else ApplyAll(if x.AnObject? && !x.o.NilInterface? then x.o else o, fs[1..])
  }

  const IDENTITY: TransformFunc := o => AnObject(o)

  function Transforms(fs: seq<Option<TransformFunc>>): (r: seq<TransformFunc>)
    ensures r != []
  {
    if NonNil(fs) == [] then [IDENTITY] else NonNil(fs)
  }

  function Transformed(order: seq<Object>, fs: seq<TransformFunc>): (r: seq<Any>)
    requires fs != []
    ensures |r| == |order| && forall i | 0 <= i < |r| :: r[i] == ApplyAll(order[i], fs)
  {
    seq(|order|, i requires 0 <= i < |order| => ApplyAll(order[i], fs))
  }

  /** Each transform gets the object that the one before it gave, or the same object again if it gave none. */
  ghost predicate Chain(objs: seq<Object>, fs: seq<TransformFunc>) {
    && |objs| == |fs|
    && forall i | 0 <= i < |fs| - 1 ::
         objs[i + 1] == match fs[i](objs[i])
                        case AnObject(o) => if o == NilInterface then objs[i] else o
                        case Other(_) => objs[i]
  }

  /** The outcome is what the last transform makes of what has come through the others. */
  lemma {:induction false} ChainMeaning(objs: seq<Object>, fs: seq<TransformFunc>)
    requires fs != [] && Chain(objs, fs)
    ensures ApplyAll(objs[0], fs) == fs[|fs| - 1](objs[|fs| - 1])
  {
    if |fs| > 1 {
      assert forall i | 0 <= i < |fs| - 1 :: fs[1..][i] == fs[i + 1] && objs[1..][i] == objs[i + 1];
      ChainMeaning(objs[1..], fs[1..]);
    }
  }

  /** The chain for an object, which is unique. */
  lemma {:induction false} ChainExists(o: Object, fs: seq<TransformFunc>) returns (objs: seq<Object>)
    requires fs != []
    ensures Chain(objs, fs) && objs[0] == o
    decreases |fs|
  {
    if |fs| == 1 {
      return [o];
    }
    var x := fs[0](o);
    var next := if x.AnObject? && !x.o.NilInterface? then x.o else o;
    var rest := ChainExists(next, fs[1..]);
    objs := [o] + rest;
    forall i | 0 <= i < |fs| - 1
      ensures objs[i + 1] == match fs[i](objs[i])
                             case AnObject(p) => if p == NilInterface then objs[i] else p
                             case Other(_) => objs[i]
    {
      if i > 0 {
        assert objs[i] == rest[i - 1] && objs[i + 1] == rest[i] && fs[i] == fs[1..][i - 1];
      }
    }
  }

  method NilFilter(fs: seq<Option<TransformFunc>>) returns (result: seq<TransformFunc>)
    ensures result == NonNil(fs)
  {
    result := [];
    for i := 0 to |fs|
      invariant result + NonNil(fs[i..]) == NonNil(fs)
    {
      assert fs[i..][1..] == fs[i + 1..];
      if fs[i].Some? {
        result := result + [fs[i].value];
      }
    }
  }

  // ----- DefaultList

  /** The `less` handed to sort.Slice. */
  function LessFor(compare: CompareFunc, sortBy: Field, ascending: bool): (Object, Object) -> bool {
    (x, y) => if !ascending then compare(x, y, sortBy) else !compare(x, y, sortBy)
  }

  /** The parts of a query that a listing reads. */
  datatype Spec = Spec(page: Pagination, sortBy: Field, ascending: bool, filters: map<Field, string>)

  datatype Handler = Handler(compare: Option<CompareFunc>, filter: Option<FilterFunc>,
                             transforms: seq<Option<TransformFunc>>)

  /** `order` is a possible outcome of the sort. */
  ghost predicate Sorts(h: Handler, q: Spec, objects: seq<Object>, order: seq<Object>) {
    var chosen := Matching(h.filter, q.filters, objects);
    && Permutes(order, chosen)
    && (h.compare.None? ==> order == chosen)
    && (h.compare.Some? ==>
          var less := LessFor(h.compare.value, q.sortBy, q.ascending);
          NoDup(chosen) && Orders(less, chosen) ==> Sorted(less, order))
  }

  /** The page of a sorted order, or a run-time error when slicing is out of bounds. */
  ghost function AnswerOf(h: Handler, q: Spec, order: seq<Object>): Option<ListResult> {
    var range := ValidPagination(q.page, |order|);
    if InBounds(range, |order|) then
      Some(ListResult(Transformed(order[range.0..range.1], Transforms(h.transforms)), |order|))
    else None
  }

  ghost predicate Answers(h: Handler, q: Spec, order: seq<Object>, r: Option<ListResult>) {
    r == AnswerOf(h, q, order)
  }

  ghost predicate Lists(h: Handler, q: Spec, objects: seq<Object>, r: Option<ListResult>) {
    exists order :: Sorts(h, q, objects, order) && Answers(h, q, order, r)
  }

  method SelectObject(filter: Option<FilterFunc>, filters: map<Field, string>, o: Object) returns (selected: bool)
    ensures selected == Selected(filter, filters, o)
    ensures selected <==> filter.None? || forall f | f in filters :: filter.value(o, Filter(f, filters[f]))
  {
    selected := true;
    var rest := filters.Keys;
    while rest != {}
      invariant rest <= filters.Keys && selected
      invariant filter.Some? ==> forall f | f in filters && f !in rest :: filter.value(o, Filter(f, filters[f]))
    {
      var field :| field in rest;
      if filter.Some? && !filter.value(o, Filter(field, filters[field])) {
        selected := false;
        break;
      }
      rest := rest - {field};
    }
  }

  method TransformObject(o: Object, fs: seq<TransformFunc>) returns (transferred: Any)
    requires fs != []
    ensures transferred == ApplyAll(o, fs)
  {
    var obj := o;
    transferred := AnObject(NilInterface);
    for i := 0 to |fs|
      invariant i < |fs| ==> ApplyAll(obj, fs[i..]) == ApplyAll(o, fs)
      invariant i == |fs| ==> transferred == ApplyAll(o, fs)
    {
      assert fs[i..][1..] == fs[i + 1..];
      transferred := fs[i](obj);
      if transferred.AnObject? && !transferred.o.NilInterface? {
        obj := transferred.o;
      }
    }
  }

  method FilterObjects(objects: seq<Object>, filter: Option<FilterFunc>, filters: map<Field, string>)
      returns (filtered: seq<Object>)
    ensures filtered == Matching(filter, filters, objects)
  {
    hide Selected, IsNil;
    filtered := [];
    for i := 0 to |objects|
      invariant filtered + Matching(filter, filters, objects[i..]) == Matching(filter, filters, objects)
    {
      assert objects[i..][1..] == objects[i + 1..];
      if IsNil(objects[i]) {
        continue;
      }
      var selected := SelectObject(filter, filters, objects[i]);
      if selected {
        ghost var rest := Matching(filter, filters, objects[i + 1..]);
        assert filtered + ([objects[i]] + rest) == (filtered + [objects[i]]) + rest;
        filtered := filtered + [objects[i]];
      }
    }
  }

  method SortObjects(chosen: seq<Object>, compare: CompareFunc, sortBy: Field,
                     ascending: bool) returns (order: seq<Object>)
    ensures Permutes(order, chosen)
    ensures NoDup(chosen) && Orders(LessFor(compare, sortBy, ascending), chosen) ==>
              Sorted(LessFor(compare, sortBy, ascending), order)
  {
    var a := new Object[|chosen|](i requires 0 <= i < |chosen| => chosen[i]);
    assert a[..] == chosen;
    SortSlice(a, LessFor(compare, sortBy, ascending));
    order := a[..];
  }

  method TransformPage(page: seq<Object>, transforms: seq<Option<TransformFunc>>) returns (items: seq<Any>)
    ensures items == Transformed(page, Transforms(transforms))
  {
    var fs := NilFilter(transforms);
    if |fs| == 0 {
      fs := fs + [IDENTITY];
    }
    var result := new Any[|page|](_ => AnObject(NilInterface));
    for i := 0 to |page|
      invariant forall k | 0 <= k < i :: result[k] == ApplyAll(page[k], fs)
    {
      var transferred := TransformObject(page[i], fs);
      result[i] := transferred;
    }
    items := result[..];
  }

  method DefaultList(objects: seq<Object>, q: Query, h: Handler) returns (r: Option<ListResult>)
    modifies q`pagination
    ensures q.pagination == (if old(q.pagination).Some? then old(q.pagination) else Some(Pagination(10, 0)))
    ensures Lists(h, Spec(q.pagination.value, q.sortBy, q.ascending, q.filters), objects, r)
  {
    var filtered := FilterObjects(objects, h.filter, q.filters);
    if h.compare.Some? {
      filtered := SortObjects(filtered, h.compare.value, q.sortBy, q.ascending);
    }
    var total := |filtered|;
    if q.pagination.None? {
      q.pagination := Some(NO_PAGINATION);
    }
    ghost var spec := Spec(q.pagination.value, q.sortBy, q.ascending, q.filters);
    assert Sorts(h, spec, objects, filtered);
    var range := ValidPagination(q.pagination.value, total);
    if !InBounds(range, total) {
      assert Answers(h, spec, filtered, None);
      return None;
    }
    var items := TransformPage(filtered[range.0..range.1], h.transforms);
    r := Some(ListResult(items, total));
    assert Answers(h, spec, filtered, r);
  }
}
