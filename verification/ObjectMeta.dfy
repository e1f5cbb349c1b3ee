/** The default comparator and filter on object metadata: pkg/service/resources/v1alpha3/interface.go. */
module ObjectMeta {
  import opened Common
  import opened Text
  import opened Query
  import opened Sorting
  import opened ListPipeline
  import opened Labels

  // ----- Comparing

  /** DefaultObjectMetaCompare: is `left` greater than `right`? */
  predicate MetaCompare(left: Meta, right: Meta, sortBy: Field) {
    if sortBy == FIELD_NAME then Less(right.name, left.name)
    else if sortBy == "!" + FIELD_NAME then Less(left.name, right.name)
    else if left.created == right.created then Less(right.name, left.name)
    else left.created > right.created
  }

  const DEFAULT_COMPARE: CompareFunc := (l: Object, r: Object, f: Field) =>
    l.Item? && r.Item? && MetaCompare(l.meta, r.meta, f)

  predicate ByName(sortBy: Field) {
    sortBy == FIELD_NAME || sortBy == "!" + FIELD_NAME
  }

  /** What a sort field compares: the name alone, or creation time and then name. */
  function SortKey(m: Meta, sortBy: Field): (int, string) {
    (if ByName(sortBy) then 0 else m.created, m.name)
  }

  ghost predicate AllItems(s: seq<Object>) {
    forall x | x in s :: x.Item?
  }

  ghost predicate KeysDistinct(s: seq<Object>, sortBy: Field)
    requires AllItems(s)
  {
    forall i, j | 0 <= i < j < |s| :: SortKey(s[i].meta, sortBy) != SortKey(s[j].meta, sortBy)
  }

  lemma CompareDecides(x: Meta, y: Meta, f: Field)
    ensures SortKey(x, f) == SortKey(y, f) ==> !MetaCompare(x, y, f) && !MetaCompare(y, x, f)
    ensures SortKey(x, f) != SortKey(y, f) ==> MetaCompare(x, y, f) != MetaCompare(y, x, f)
  {
    LessTotal(x.name, y.name);
    LessTotal(y.name, x.name);
  }

  lemma CompareTransitive(x: Meta, y: Meta, z: Meta, f: Field)
    requires MetaCompare(x, y, f) && MetaCompare(y, z, f)
    ensures MetaCompare(x, z, f)
  {
    if Less(x.name, y.name) && Less(y.name, z.name) {
      LessTransitive(x.name, y.name, z.name);
    }
    if Less(z.name, y.name) && Less(y.name, x.name) {
      LessTransitive(z.name, y.name, x.name);
    }
  }

  /** The comparator is a strict total order on objects exactly when no two of them share a sort key. */
  lemma DefaultOrdersIff(s: seq<Object>, f: Field, ascending: bool)
    requires AllItems(s)
    ensures KeysDistinct(s, f) <==> NoDup(s) && Orders(LessFor(DEFAULT_COMPARE, f, ascending), s)
  {
    var less := LessFor(DEFAULT_COMPARE, f, ascending);
    if KeysDistinct(s, f) {
      forall x, y | x in s && y in s && x != y ensures less(x, y) != less(y, x) {
        DifferentKeys(s, f, x, y);
        CompareDecides(x.meta, y.meta, f);
      }
      forall x, y, z | x in s && y in s && z in s && x != y && y != z && x != z && less(x, y) && less(y, z)
        ensures less(x, z)
      {
        DifferentKeys(s, f, x, y);
        DifferentKeys(s, f, y, z);
        DifferentKeys(s, f, x, z);
        CompareDecides(x.meta, y.meta, f);
        CompareDecides(y.meta, z.meta, f);
        CompareDecides(x.meta, z.meta, f);
        if ascending {
          CompareTransitive(z.meta, y.meta, x.meta, f);
        } else {
          CompareTransitive(x.meta, y.meta, z.meta, f);
        }
      }
    }
    if NoDup(s) && Orders(less, s) {
      forall i, j | 0 <= i < j < |s| ensures SortKey(s[i].meta, f) != SortKey(s[j].meta, f) {
        CompareDecides(s[i].meta, s[j].meta, f);
        assert less(s[i], s[j]) != less(s[j], s[i]);
      }
    }
  }

  lemma DifferentKeys(s: seq<Object>, f: Field, x: Object, y: Object)
    requires AllItems(s) && KeysDistinct(s, f) && x in s && y in s && x != y
    ensures SortKey(x.meta, f) != SortKey(y.meta, f)
  {
    var i :| 0 <= i < |s| && s[i] == x;
    var j :| 0 <= j < |s| && s[j] == y;
  }

  /** Descending and ascending listings of the same objects are exact reverses of each other. */
  lemma AscendingIsReverse(chosen: seq<Object>, f: Field, down: seq<Object>, up: seq<Object>)
    requires AllItems(chosen) && KeysDistinct(chosen, f)
    requires Permutes(down, chosen) && Sorted(LessFor(DEFAULT_COMPARE, f, false), down)
    requires Permutes(up, chosen) && Sorted(LessFor(DEFAULT_COMPARE, f, true), up)
    ensures up == Reversed(down)
  {
    var less := LessFor(DEFAULT_COMPARE, f, false);
    DefaultOrdersIff(chosen, f, false);
    PermutesNoDup(chosen, down);
    PermutesOrders(less, chosen, down);
    SortedReversed(less, down, up);
  }

  /**
    `x` may stand before `y` in a descending listing: by name from the end of the dictionary, by name
    from its beginning, or else newest first with ties by name from the end.
   */
  ghost predicate Before(x: Meta, y: Meta, f: Field) {
    if f == "name" then Precedes(y.name, x.name)
    else if f == "!name" then Precedes(x.name, y.name)
    else y.created < x.created || (y.created == x.created && Precedes(y.name, x.name))
  }

  ghost predicate InDirection(s: seq<Object>, f: Field, ascending: bool)
    requires AllItems(s)
  {
    forall i, j | 0 <= i < j < |s| ::
      if ascending then Before(s[j].meta, s[i].meta, f) else Before(s[i].meta, s[j].meta, f)
  }

  lemma CompareMeaning(x: Meta, y: Meta, f: Field)
    ensures MetaCompare(x, y, f) <==> Before(x, y, f)
  {
    LessMeaning(x.name, y.name);
    LessMeaning(y.name, x.name);
  }

  /** What the two directions mean to a reader of the list, for any field that is asked for. */
  lemma DirectionMeaning(s: seq<Object>, f: Field, ascending: bool)
    requires AllItems(s) && KeysDistinct(s, f) && Sorted(LessFor(DEFAULT_COMPARE, f, ascending), s)
    ensures InDirection(s, f, ascending)
  {
    var less := LessFor(DEFAULT_COMPARE, f, ascending);
    forall i, j | 0 <= i < j < |s|
      ensures if ascending then Before(s[j].meta, s[i].meta, f) else Before(s[i].meta, s[j].meta, f)
    {
      assert less(s[i], s[j]);
      CompareDecides(s[i].meta, s[j].meta, f);
      CompareMeaning(s[i].meta, s[j].meta, f);
      CompareMeaning(s[j].meta, s[i].meta, f);
    }
  }

  // ----- Filtering

  /** DefaultObjectMetaFilter, said with quantifiers. */
  ghost predicate MetaSelects(item: Meta, filter: Filter) {
    var f, v := filter.field, filter.value;
    if f == "names" then exists i :: 0 <= i < |Split(v, ',')| && Split(v, ',')[i] == item.name
    else if f == "name" then exists i: nat :: MatchAt(item.name, v, i)
    else if f == "uid" then item.uid == v
    else if f == "namespace" then item.namespace == v
    else if f == "ownerReference" then exists o :: o in item.owners && o.uid == v
    else if f == "ownerKind" then exists o :: o in item.owners && o.kind == v
    else if f == "annotation" then LabelsHold(item.annotations, v)
    else if f == "label" then LabelsHold(item.labels, v)
    else true
  }

  /** "names" takes a list of names. */
  lemma NamesFilter(item: Meta, names: seq<string>)
    requires names != [] && AllFree(names, ',')
    ensures MetaSelects(item, Filter("names", Join(names, ','))) <==> item.name in names
  {
    SplitJoin(names, ',');
  }

  /** "name" takes any part of the name. */
  lemma NameFilter(item: Meta, v: string)
    ensures MetaSelects(item, Filter("name", v)) <==> exists before, after :: item.name == before + v + after
  {
    forall i: nat | MatchAt(item.name, v, i) ensures exists before, after :: item.name == before + v + after {
      assert item.name == item.name[..i] + v + item.name[i + |v|..];
    }
    forall before, after | item.name == before + v + after ensures MatchAt(item.name, v, |before|) {
    }
  }

  /** "label" and "annotation" take a printed list of terms. */
  lemma LabelFilters(item: Meta, ps: seq<Padded>)
    requires ps != [] && forall i | 0 <= i < |ps| :: PaddedOK(ps[i])
    ensures MetaSelects(item, Filter("label", Join(PrintAll(ps), ','))) <==> AllMeant(item.labels, ps)
    ensures MetaSelects(item, Filter("annotation", Join(PrintAll(ps), ','))) <==> AllMeant(item.annotations, ps)
  {
    hide PaddedOK, LabelsHold, PrintAll, Join, MetaSelects;
    var text := Join(PrintAll(ps), ',');
    LabelFields(item, text);
    LabelFilterHolds(item.labels, ps);
    LabelFilterHolds(item.annotations, ps);
  }

  lemma LabelFields(item: Meta, v: string)
    ensures MetaSelects(item, Filter("label", v)) <==> LabelsHold(item.labels, v)
    ensures MetaSelects(item, Filter("annotation", v)) <==> LabelsHold(item.annotations, v)
  {
    hide LabelsHold;
  }

  /** The other fields compare one value, or that of some owner; an unknown field accepts everything. */
  lemma PlainFilters(item: Meta, field: Field, v: string)
    ensures MetaSelects(item, Filter("uid", v)) <==> v == item.uid
    ensures MetaSelects(item, Filter("namespace", v)) <==> v == item.namespace
    ensures MetaSelects(item, Filter("ownerReference", v))
       <==> exists i :: 0 <= i < |item.owners| && item.owners[i].uid == v
    ensures MetaSelects(item, Filter("ownerKind", v))
       <==> exists i :: 0 <= i < |item.owners| && item.owners[i].kind == v
    ensures field !in {"names", "name", "uid", "namespace", "ownerReference", "ownerKind", "annotation", "label"} ==>
              MetaSelects(item, Filter(field, v))
  {
  }

  method DefaultObjectMetaFilter(item: Meta, filter: Filter) returns (r: bool)
    ensures r <==> MetaSelects(item, filter)
  {
    var f, v := filter.field, filter.value;
    if f == "names" {
      var names := Split(v, ',');
      for i := 0 to |names|
        invariant forall j | 0 <= j < i :: names[j] != item.name
      {
        if item.name == names[i] {
          return true;
        }
      }
      return false;
    } else if f == FIELD_NAME {
      ContainsMeaning(item.name, v);
      return Contains(item.name, v);
    } else if f == "uid" {
      return item.uid == v;
    } else if f == "namespace" {
      return item.namespace == v;
    } else if f == "ownerReference" {
      for i := 0 to |item.owners|
        invariant forall j | 0 <= j < i :: item.owners[j].uid != v
      {
        if item.owners[i].uid == v {
          return true;
        }
      }
      return false;
    } else if f == "ownerKind" {
      for i := 0 to |item.owners|
        invariant forall j | 0 <= j < i :: item.owners[j].kind != v
      {
        if item.owners[i].kind == v {
          return true;
        }
      }
      return false;
    } else if f == "annotation" {
      r := LabelsMatch(item.annotations, v);
    } else if f == "label" {
      r := LabelsMatch(item.labels, v);
    } else {
      return true;
    }
  }
}
