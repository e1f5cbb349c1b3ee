/**
  Map iteration order and the result of Equal, with no condition on NaN keys: whatever orders a run
  lists the keys of maps in, it reports nothing or it reports something.
 */
module DeepOrder {
  import opened Common
  import opened DeepValues
  import opened DeepDiff
  import opened DeepCap
  import opened DeepEquality
  import opened DeepPaths
  import opened DeepComplete

  /** The run records nothing for the pair. */
  ghost predicate Silent(env: Env, a: Option<Value>, b: Option<Value>)
    requires WellTypedOpt(a) && WellTypedOpt(b)
  {
    Diffs(env, true, a, b, [], 0) == []
  }

  ghost predicate AllSilent(env: Env, bound: Value, items: seq<Item<Value>>)
    requires Below(items, bound)
  {
    forall i | 0 <= i < |items| :: items[i].Both? && Silent(env, Some(items[i].x), Some(items[i].y))
  }

  /** How much is recorded does not depend on where the pair is. */
  lemma {:induction false} SameCount(env: Env, a: Option<Value>, b: Option<Value>,
                                     path: seq<Step>, level: int, path': seq<Step>, level': int)
    requires WellTypedOpt(a) && WellTypedOpt(b)
    ensures |Diffs(env, true, a, b, path, level)| == |Diffs(env, true, a, b, path', level')|
    decreases if a.Some? then 1 else 0, if a.Some? then a.value else LEAF, 1, 0
  {
    if a.Some? && b.Some? {
      match Head(env, true, a.value.node, b.value.node)
      case Through(x, y) => SameCount(env, x, y, path, level + 1, path', level' + 1);
      case Scan =>
        ItemsBelow(a.value, b.value);
        SameItemCount(env, a.value, Items(a.value.node, b.value.node), path, level, path', level');
      case _ =>
    }
  }

  lemma {:induction false} SameItemCount(env: Env, bound: Value, items: seq<Item<Value>>,
                                         path: seq<Step>, level: int, path': seq<Step>, level': int)
    requires Below(items, bound)
    ensures |ItemDiffs(env, true, bound, items, path, level)| == |ItemDiffs(env, true, bound, items, path', level')|
    decreases 1, bound, 0, |items|
  {
    hide Diffs;
    if items != [] {
      var it := items[0];
      if it.Both? {
        SameCount(env, Some(it.x), Some(it.y), path + [it.step], level + 1, path' + [it.step], level' + 1);
      }
      SameItemCount(env, bound, items[1..], path, level, path', level');
    }
  }

  lemma {:induction false} SilentItems(env: Env, bound: Value, items: seq<Item<Value>>, path: seq<Step>, level: int)
    requires Below(items, bound)
    ensures ItemDiffs(env, true, bound, items, path, level) == [] <==> AllSilent(env, bound, items)
    decreases |items|
  {
    hide Diffs;
    if items != [] {
      var it := items[0];
      if it.Both? {
        SameCount(env, Some(it.x), Some(it.y), path + [it.step], level + 1, [], 0);
      }
      SilentItems(env, bound, items[1..], path, level);
      assert AllSilent(env, bound, items[1..]) <==>
             forall i | 1 <= i < |items| :: items[i].Both? && Silent(env, Some(items[i].x), Some(items[i].y)) by {
        assert forall i | 1 <= i < |items| :: items[i] == items[1..][i - 1];
      }
    }
  }

  /** Two runs, each with its own key orders, are at the same pair of values. */
  ghost predicate TwoRuns(a: Value, a': Value, b: Value, b': Value) {
    && WellTyped(a) && WellTyped(a') && WellTyped(b) && WellTyped(b')
    && Reordered(a, a', false) && Reordered(b, b', false)
  }

  lemma ReorderedChild(a: Value, a': Value, s: Step)
    requires WellTyped(a) && WellTyped(a') && Reordered(a, a', false)
    ensures Child(a, s).Some? == Child(a', s).Some?
    ensures Child(a, s).Some? ==>
              && WellTyped(Child(a, s).value) && WellTyped(Child(a', s).value)
              && Reordered(Child(a, s).value, Child(a', s).value, false)
  {
    ChildTyped(a, s);
    ChildTyped(a', s);
    if a.node.body.Entries? && s.MapStep? {
      var xs, ys := a.node.body.entries, a'.node.body.entries;
      var i := LookupIndex(xs, s.key);
      var j := LookupIndex(ys, s.key);
    }
  }

  lemma KeyVisitedIff(a: Value, b: Value, s: Step)
    requires Alike(a, b) && a.node.body.Entries?
    ensures (exists it :: it in Items(a.node, b.node) && it.step == s)
       <==> s.MapStep? && (KeyOf(a.node.body.entries, s.key) || KeyOf(b.node.body.entries, s.key))
  {
    var xs, ys := a.node.body.entries, b.node.body.entries;
    var items := Items(a.node, b.node);
    KeySteps(xs, ys, 0);
    ExtraSteps(xs, ys, 0);
    forall it | it in items && it.step == s ensures s.MapStep? && (KeyOf(xs, s.key) || KeyOf(ys, s.key)) {
      if it in ExtraItems(xs, ys, 0) {
        assert ExtraKey(xs, ys, 0, s);
      } else {
        var k :| 0 <= k < |xs| && KeyItems(xs, ys, 0)[k] == it;
        assert xs[k].key == s.key;
      }
    }
    if s.MapStep? && KeyOf(xs, s.key) {
      var i :| 0 <= i < |xs| && xs[i].key == s.key;
      KeyVisited(xs, ys, 0, i);
      assert KeyItem(xs, ys, s.key) in items;
    } else if s.MapStep? && KeyOf(ys, s.key) {
      var j :| 0 <= j < |ys| && ys[j].key == s.key;
      var i := LookupIndex(xs, s.key);
      ExtraVisited(xs, ys, 0, j);
      assert OnlyRight(s, Lookup(ys, s.key), NO_KEY) in items;
    }
  }

  /** Both runs visit the same children. */
  lemma SameVisits(env: Env, a: Value, a': Value, b: Value, b': Value, it': Item<Value>) returns (it: Item<Value>)
    requires TwoRuns(a, a', b, b') && a.node.t == b.node.t && it' in Items(a'.node, b'.node)
    ensures it in Items(a.node, b.node) && it.step == it'.step
  {
    match a.node.body
    case Fields(xs) =>
      FieldSteps(a.node.t.fields, a'.node.body.fields, b'.node.body.fields, 0);
      var k :| 0 <= k < |Items(a'.node, b'.node)| && Items(a'.node, b'.node)[k] == it';
      var i := it'.step.index;
      FieldVisited(a.node.t.fields, xs, b.node.body.fields, 0, i);
      it := Both(it'.step, xs[i], b.node.body.fields[i]);
    case Entries(_, _, _) =>
      KeyVisitedIff(a, b, it'.step);
      KeyVisitedIff(a', b', it'.step);
      SameKeys(a, a', it'.step.key);
      SameKeys(b, b', it'.step.key);
      it :| it in Items(a.node, b.node) && it.step == it'.step;
    case Elems(xs) =>
      ElemSteps(a'.node.body.elems, b'.node.body.elems, 0);
      ElemVisited(xs, b.node.body.elems, 0, it'.step.i);
      it := Both(it'.step, xs[it'.step.i], b.node.body.elems[it'.step.i]);
    case Slice(_, _, xs) =>
      SliceSteps(a'.node.body.items, b'.node.body.items, 0);
      SliceVisited(xs, b.node.body.items, 0, it'.step.i);
      it := SliceItem(xs, b.node.body.items, it'.step.i);
    case _ =>
      assert false;
  }

  lemma SameKeys(a: Value, a': Value, k: Key)
    requires WellTyped(a) && WellTyped(a') && Reordered(a, a', false) && a.node.body.Entries?
    ensures KeyOf(a.node.body.entries, k) <==> KeyOf(a'.node.body.entries, k)
  {
  }

  lemma {:induction false} SilentInBoth(env: Env, a: Value, a': Value, b: Value, b': Value)
    requires TwoRuns(a, a', b, b') && Silent(env, Some(a), Some(b))
    ensures Silent(env, Some(a'), Some(b'))
    decreases a
  {
    match Head(env, true, a.node, b.node)
    case Quiet =>
    case Report(_, _) =>
    case Through(x, y) =>
      SameCount(env, x, y, [], 1, [], 0);
      if x.Some? && y.Some? {
        SilentInBoth(env, x.value, a'.node.body.target.value, y.value, b'.node.body.target.value);
        SameCount(env, a'.node.body.target, b'.node.body.target, [], 1, [], 0);
      }
    case Scan =>
      var items, items' := Items(a.node, b.node), Items(a'.node, b'.node);
      ItemsBelow(a, b);
      ItemsBelow(a', b');
      SilentItems(env, a, items, [], 0);
      SilentItems(env, a', items', [], 0);
      forall k | 0 <= k < |items'| ensures items'[k].Both? && Silent(env, Some(items'[k].x), Some(items'[k].y)) {
        SilentChild(env, a, a', b, b', items'[k]);
      }
  }

  lemma {:induction false} SilentChild(env: Env, a: Value, a': Value, b: Value, b': Value, it': Item<Value>)
    requires TwoRuns(a, a', b, b') && Alike(a, b)
    requires Below(Items(a.node, b.node), a) && AllSilent(env, a, Items(a.node, b.node))
    requires it' in Items(a'.node, b'.node)
    ensures it'.Both? && WellTyped(it'.x) && WellTyped(it'.y) && Silent(env, Some(it'.x), Some(it'.y))
    decreases a, 0
  {
    hide Diffs, Silent;
    var it := SameVisits(env, a, a', b, b', it');
    AllItemsOK(a, b);
    AllItemsOK(a', b');
    assert ItemOK(a, b, it) && ItemOK(a', b', it');
    ReorderedChild(a, a', it.step);
    ReorderedChild(b, b', it.step);
    ChildSmaller(a, it.step);
    SilentInBoth(env, it.x, it'.x, it.y, it'.y);
  }

  /** A nil result does not depend on the orders in which a run lists the keys of maps. */
  lemma NilAnswerIgnoresMapOrder(env: Env, cfg: Config, a: Value, a': Value, b: Value, b': Value)
    requires TwoRuns(a, a', b, b')
    requires cfg.maxDiff >= 1 && cfg.maxDepth <= 0
    ensures Answer(env, cfg, Some(a), Some(b)) == [] <==> Answer(env, cfg, Some(a'), Some(b')) == []
  {
    hide Diffs;
    ReorderedBack(a, a', false);
    ReorderedBack(b, b', false);
    NothingKept(cfg.maxDepth, Diffs(env, true, Some(a), Some(b), [], 0));
    NothingKept(cfg.maxDepth, Diffs(env, true, Some(a'), Some(b'), [], 0));
    if Silent(env, Some(a), Some(b)) {
      SilentInBoth(env, a, a', b, b');
    }
    if Silent(env, Some(a'), Some(b')) {
      SilentInBoth(env, a', a, b', b);
    }
  }
}
