/**
  The order of the full list of differences: by position of fields, elements and slice indices, and
  for maps the keys of the left value as they are listed, then the keys only the right one has.
 */
module DeepSequence {
  import opened Common
  import opened DeepValues
  import opened DeepDiff
  import opened DeepCap
  import opened DeepEquality
  import opened DeepPaths
  import opened DeepComplete

  ghost predicate Earlier(es: seq<Entry<Value>>, k: Key, l: Key) {
    exists i, j :: 0 <= i < j < |es| && es[i].key == k && es[j].key == l
  }

  /** Below the pair, `s` is visited before `t`. */
  ghost predicate StepBefore(a: Value, b: Value, s: Step, t: Step) {
    match (s, t)
    case (FieldStep(i, _), FieldStep(j, _)) => i < j
    case (ArrayStep(i), ArrayStep(j)) => i < j
    case (SliceStep(i), SliceStep(j)) => i < j
    case (MapStep(k), MapStep(l)) =>
      && a.node.body.Entries? && b.node.body.Entries?
      && var xs, ys := a.node.body.entries, b.node.body.entries;
         || Earlier(xs, k, l)
         || (Lookup(xs, l).None? && KeyOf(ys, l) && (KeyOf(xs, k) || (Lookup(xs, k).None? && Earlier(ys, k, l))))
    case _ => false
  }

  /** Where two paths first part, the first is visited before the second. */
  ghost predicate PathBefore(a: Option<Value>, b: Option<Value>, p: seq<Step>, q: seq<Step>)
    decreases |p|
  {
    && p != [] && q != [] && Strip(a).Some? && Strip(b).Some?
    && var x, y := Strip(a).value, Strip(b).value;
       StepBefore(x, y, p[0], q[0]) || (p[0] == q[0] && PathBefore(Child(x, p[0]), Child(y, p[0]), p[1..], q[1..]))
  }

  ghost predicate InOrder(a: Option<Value>, b: Option<Value>, path: seq<Step>, fs: seq<Found>) {
    && (forall i | 0 <= i < |fs| :: path <= fs[i].diff.path)
    && (forall i, j | 0 <= i < j < |fs| :: PathBefore(a, b, fs[i].diff.path[|path|..], fs[j].diff.path[|path|..]))
  }

  // ----- The loops

  ghost predicate OrderedSteps(a: Value, b: Value, items: seq<Item<Value>>) {
    forall i, j | 0 <= i < j < |items| :: StepBefore(a, b, items[i].step, items[j].step)
  }

  lemma FieldsOrdered(a: Value, b: Value, i: nat)
    requires Alike(a, b) && a.node.body.Fields? && i <= |a.node.t.fields|
    ensures OrderedSteps(a, b, FieldItems(a.node.t.fields, a.node.body.fields, b.node.body.fields, i))
    decreases |a.node.t.fields| - i
  {
    if i < |a.node.t.fields| {
      FieldsOrdered(a, b, i + 1);
      FieldSteps(a.node.t.fields, a.node.body.fields, b.node.body.fields, i + 1);
    }
  }

  lemma KeysOrdered(a: Value, b: Value)
    requires Alike(a, b) && a.node.body.Entries?
    ensures OrderedSteps(a, b, KeyItems(a.node.body.entries, b.node.body.entries, 0))
  {
    KeySteps(a.node.body.entries, b.node.body.entries, 0);
  }

  lemma ExtrasOrdered(a: Value, b: Value, i: nat)
    requires Alike(a, b) && a.node.body.Entries? && i <= |b.node.body.entries|
    ensures OrderedSteps(a, b, ExtraItems(a.node.body.entries, b.node.body.entries, i))
    decreases |b.node.body.entries| - i
  {
    var xs, ys := a.node.body.entries, b.node.body.entries;
    if i < |ys| {
      ExtrasOrdered(a, b, i + 1);
      ExtraSteps(xs, ys, i + 1);
      var rest := ExtraItems(xs, ys, i + 1);
      forall k | 0 <= k < |rest| && Lookup(xs, ys[i].key).None?
        ensures StepBefore(a, b, MapStep(ys[i].key), rest[k].step)
      {
        assert ExtraKey(xs, ys, i + 1, rest[k].step);
      }
    }
  }

  lemma MapOrdered(a: Value, b: Value)
    requires Alike(a, b) && a.node.body.Entries?
    ensures OrderedSteps(a, b, Items(a.node, b.node))
  {
    var xs, ys := a.node.body.entries, b.node.body.entries;
    KeysOrdered(a, b);
    ExtrasOrdered(a, b, 0);
    KeySteps(xs, ys, 0);
    ExtraSteps(xs, ys, 0);
    var keys, extras := KeyItems(xs, ys, 0), ExtraItems(xs, ys, 0);
    forall i, j | 0 <= i < |keys| && 0 <= j < |extras| ensures StepBefore(a, b, keys[i].step, extras[j].step) {
      assert ExtraKey(xs, ys, 0, extras[j].step);
    }
  }

  lemma AllOrdered(a: Value, b: Value)
    requires Alike(a, b)
    ensures OrderedSteps(a, b, Items(a.node, b.node))
  {
    match a.node.body
    case Fields(_) => FieldsOrdered(a, b, 0);
    case Entries(_, _, _) => MapOrdered(a, b);
    case Elems(xs) => ElemSteps(xs, b.node.body.elems, 0);
    case Slice(_, _, xs) => SliceSteps(xs, b.node.body.items, 0);
    case _ =>
  }

  // ----- The list

  lemma {:induction false} DiffsInOrder(env: Env, shortcut: bool, a: Option<Value>, b: Option<Value>,
                                        path: seq<Step>, level: int)
    requires WellTypedOpt(a) && WellTypedOpt(b)
    ensures InOrder(a, b, path, Diffs(env, shortcut, a, b, path, level))
    decreases if a.Some? then 1 else 0, if a.Some? then a.value else LEAF, 1, 0
  {
    if a.Some? && b.Some? {
      match Head(env, shortcut, a.value.node, b.value.node)
      case Through(x, y) =>
        DiffsInOrder(env, shortcut, x, y, path, level + 1);
        ThroughInOrder(a.value, b.value, path, Diffs(env, shortcut, x, y, path, level + 1));
      case Scan =>
        AllItemsOK(a.value, b.value);
        ItemsBelow(a.value, b.value);
        AllOrdered(a.value, b.value);
        ItemsInOrder(env, shortcut, a.value, b.value, Items(a.value.node, b.value.node), path, level);
      case _ =>
    }
  }

  lemma ThroughInOrder(a: Value, b: Value, path: seq<Step>, fs: seq<Found>)
    requires a.node.body.Elem? && b.node.body.Elem?
    requires InOrder(a.node.body.target, b.node.body.target, path, fs)
    ensures InOrder(Some(a), Some(b), path, fs)
  {
    assert Strip(Some(a)) == Strip(a.node.body.target) && Strip(Some(b)) == Strip(b.node.body.target);
  }

  lemma {:induction false} ItemsInOrder(env: Env, shortcut: bool, a: Value, b: Value, items: seq<Item<Value>>,
                                        path: seq<Step>, level: int)
    requires WellTyped(a) && WellTyped(b) && !a.node.body.Elem? && !b.node.body.Elem?
    requires Below(items, a) && ItemsOK(a, b, items) && OrderedSteps(a, b, items)
    ensures var fs := ItemDiffs(env, shortcut, a, items, path, level);
            InOrder(Some(a), Some(b), path, fs) && forall i | 0 <= i < |fs| :: GoesThrough(path, items, fs[i].diff.path)
    decreases 1, a, 0, |items|
  {
    hide Diffs, StepBefore;
    if items != [] {
      var it := items[0];
      assert ItemOK(a, b, it);
      var one := OneItem(env, shortcut, a, items, path, level);
      var rest := ItemDiffs(env, shortcut, a, items[1..], path, level);
      if it.Both? {
        DiffsInOrder(env, shortcut, Some(it.x), Some(it.y), path + [it.step], level + 1);
      }
      ItemsInOrder(env, shortcut, a, b, items[1..], path, level);
      JoinInOrder(a, b, items, path, one, rest);
    }
  }

  lemma JoinInOrder(a: Value, b: Value, items: seq<Item<Value>>, path: seq<Step>, one: seq<Found>, rest: seq<Found>)
    requires !a.node.body.Elem? && !b.node.body.Elem? && items != [] && OrderedSteps(a, b, items)
    requires InOrder(Child(a, items[0].step), Child(b, items[0].step), path + [items[0].step], one)
    requires InOrder(Some(a), Some(b), path, rest)
    requires forall i | 0 <= i < |rest| :: GoesThrough(path, items[1..], rest[i].diff.path)
    ensures InOrder(Some(a), Some(b), path, one + rest)
    ensures forall i | 0 <= i < |one + rest| :: GoesThrough(path, items, (one + rest)[i].diff.path)
  {
    hide StepBefore;
    var s, fs := items[0].step, one + rest;
    forall i | 0 <= i < |fs| ensures path <= fs[i].diff.path && GoesThrough(path, items, fs[i].diff.path) {
      if i < |one| {
        PrefixStep(path, s, fs[i].diff.path);
      } else {
        var k :| 0 <= k < |items[1..]| && path + [items[1..][k].step] <= fs[i].diff.path;
        assert path + [items[k + 1].step] <= fs[i].diff.path;
      }
    }
    forall i, j | 0 <= i < j < |fs|
      ensures PathBefore(Some(a), Some(b), fs[i].diff.path[|path|..], fs[j].diff.path[|path|..])
    {
      var p, q := fs[i].diff.path, fs[j].diff.path;
      if j < |one| {
        PrefixStep(path, s, p);
        PrefixStep(path, s, q);
        assert p[|path + [s]|..] == p[|path|..][1..] && q[|path + [s]|..] == q[|path|..][1..];
      } else if i < |one| {
        PrefixStep(path, s, p);
        assert GoesThrough(path, items[1..], rest[j - |one|].diff.path);
        var k :| 0 <= k < |items[1..]| && path + [items[1..][k].step] <= q;
        PrefixStep(path, items[1..][k].step, q);
        assert items[k + 1].step == q[|path|..][0];
      } else {
        assert fs[i] == rest[i - |one|] && fs[j] == rest[j - |one|];
      }
    }
  }

  ghost predicate EachBefore(a: Option<Value>, b: Option<Value>, ds: seq<Diff>) {
    forall i, j | 0 <= i < j < |ds| :: PathBefore(a, b, ds[i].path, ds[j].path)
  }

  lemma {:induction false} KeptInOrder(maxDepth: int, a: Option<Value>, b: Option<Value>, fs: seq<Found>)
    requires InOrder(a, b, [], fs)
    ensures EachBefore(a, b, Kept(maxDepth, fs))
  {
    hide PathBefore;
    if fs != [] {
      var ds, rest := Kept(maxDepth, fs), Kept(maxDepth, fs[1..]);
      var d := fs[0].diff;
      KeptInOrder(maxDepth, a, b, fs[1..]);
      forall j | 0 <= j < |rest| ensures PathBefore(a, b, d.path, rest[j].path) {
        var k := KeptFrom(maxDepth, fs[1..], j);
        assert fs[k + 1].diff == rest[j];
        assert d.path[0..] == d.path && rest[j].path[0..] == rest[j].path;
      }
      forall i, j | 0 <= i < j < |ds| ensures PathBefore(a, b, ds[i].path, ds[j].path) {
        if ds == rest {
          assert PathBefore(a, b, rest[i].path, rest[j].path);
        } else {
          assert ds == [d] + rest && ds[j] == rest[j - 1];
          if i > 0 {
            assert ds[i] == rest[i - 1] && PathBefore(a, b, rest[i - 1].path, rest[j - 1].path);
          }
        }
      }
    }
  }

  /** Equal returns its entries in the order of the places they are for, at any cap and depth limit. */
  lemma AnswerInOrder(env: Env, cfg: Config, a: Value, b: Value, i: nat, j: nat)
    requires WellTyped(a) && WellTyped(b) && i < j < |Answer(env, cfg, Some(a), Some(b))|
    ensures var ds := Answer(env, cfg, Some(a), Some(b)); PathBefore(Some(a), Some(b), ds[i].path, ds[j].path)
  {
    hide Diffs, PathBefore;
    var fs := Diffs(env, true, Some(a), Some(b), [], 0);
    DiffsInOrder(env, true, Some(a), Some(b), [], 0);
    KeptInOrder(cfg.maxDepth, Some(a), Some(b), fs);
    var ds := Kept(cfg.maxDepth, fs);
    assert PathBefore(Some(a), Some(b), ds[i].path, ds[j].path);
    assert ds[i] == Take(ds, cfg.maxDiff)[i] && ds[j] == Take(ds, cfg.maxDiff)[j];
  }
}
