/**
  The full list of differences is full. Wherever the comparer looks, a place where the two values
  differ is named by an entry at that place or below it, and no two entries name the same place.
 */
module DeepComplete {
  import opened Common
  import opened DeepValues
  import opened DeepDiff
  import opened DeepCap
  import opened DeepEquality
  import opened DeepPaths

  // ----- Each loop visits every child it should

  lemma FieldVisited(infos: seq<FieldInfo>, xs: seq<Value>, ys: seq<Value>, i: nat, j: nat)
    requires |infos| == |xs| == |ys| && i <= j < |infos| && Compared(infos[j])
    ensures Both(FieldStep(j, infos[j].name), xs[j], ys[j]) in FieldItems(infos, xs, ys, i)
    decreases j - i
  {
    if i < j {
      FieldVisited(infos, xs, ys, i + 1, j);
    }
  }

  lemma KeyVisited(xs: seq<Entry<Value>>, ys: seq<Entry<Value>>, i: nat, j: nat)
    requires i <= j < |xs|
    ensures KeyItem(xs, ys, xs[j].key) in KeyItems(xs, ys, i)
    decreases j - i
  {
    if i < j {
      KeyVisited(xs, ys, i + 1, j);
    }
  }

  lemma ExtraVisited(xs: seq<Entry<Value>>, ys: seq<Entry<Value>>, i: nat, j: nat)
    requires i <= j < |ys| && Lookup(xs, ys[j].key).None?
    ensures OnlyRight(MapStep(ys[j].key), Lookup(ys, ys[j].key), NO_KEY) in ExtraItems(xs, ys, i)
    decreases j - i
  {
    if i < j {
      ExtraVisited(xs, ys, i + 1, j);
    }
  }

  lemma ElemVisited(xs: seq<Value>, ys: seq<Value>, i: nat, j: nat)
    requires |xs| == |ys| && i <= j < |xs|
    ensures Both(ArrayStep(j), xs[j], ys[j]) in ElemItems(xs, ys, i)
    decreases j - i
  {
    if i < j {
      ElemVisited(xs, ys, i + 1, j);
    }
  }

  lemma SliceVisited(xs: seq<Value>, ys: seq<Value>, i: nat, j: nat)
    requires i <= j < Max(|xs|, |ys|)
    ensures SliceItem(xs, ys, j) in SliceItems(xs, ys, i)
    decreases j - i
  {
    if i < j {
      SliceVisited(xs, ys, i + 1, j);
    }
  }

  /** A step the comparer takes below `v`, unless it leads to nothing: not one to a field that is skipped. */
  predicate Taken(v: Value, s: Step) {
    match s
    case FieldStep(i, name) =>
      && v.node.body.Fields? && i < |v.node.t.fields| && name == v.node.t.fields[i].name
      && v.node.t.fields[i].visible && !v.node.t.fields[i].ignored
    case _ => true
  }

  lemma MapVisited(a: Value, b: Value, k: Key)
    requires Alike(a, b) && a.node.body.Entries?
    requires Child(a, MapStep(k)).Some? || Child(b, MapStep(k)).Some?
    ensures exists it :: it in Items(a.node, b.node) && it.step == MapStep(k)
  {
    var xs, ys := a.node.body.entries, b.node.body.entries;
    var i := LookupIndex(xs, k);
    var j := LookupIndex(ys, k);
    if Lookup(xs, k).Some? {
      KeyVisited(xs, ys, 0, i);
      assert KeyItem(xs, ys, k) in Items(a.node, b.node);
    } else {
      ExtraVisited(xs, ys, 0, j);
      assert OnlyRight(MapStep(k), Lookup(ys, k), NO_KEY) in Items(a.node, b.node);
    }
  }

  /** A child that is there on either side and is not skipped is visited. */
  lemma ChildVisited(a: Value, b: Value, s: Step) returns (it: Item<Value>)
    requires Alike(a, b) && !a.node.body.Elem? && Taken(a, s) && (Child(a, s).Some? || Child(b, s).Some?)
    ensures it in Items(a.node, b.node) && it.step == s && ItemOK(a, b, it)
  {
    AllItemsOK(a, b);
    match a.node.body
    case Fields(xs) =>
      FieldVisited(a.node.t.fields, xs, b.node.body.fields, 0, s.index);
      it := Both(s, xs[s.index], b.node.body.fields[s.index]);
    case Entries(_, _, _) =>
      MapVisited(a, b, s.key);
      it :| it in Items(a.node, b.node) && it.step == s;
    case Elems(xs) =>
      ElemVisited(xs, b.node.body.elems, 0, s.i);
      it := Both(s, xs[s.i], b.node.body.elems[s.i]);
    case Slice(_, _, xs) =>
      SliceVisited(xs, b.node.body.items, 0, s.i);
      it := SliceItem(xs, b.node.body.items, s.i);
    case _ =>
      assert false;
  }

  // ----- Every visited child that differs is reported

  ghost predicate Named(fs: seq<Found>, path: seq<Step>) {
    exists i :: 0 <= i < |fs| && path <= fs[i].diff.path
  }

  lemma NamedAppend(fs: seq<Found>, gs: seq<Found>, path: seq<Step>)
    ensures Named(fs, path) || Named(gs, path) ==> Named(fs + gs, path)
  {
    if Named(fs, path) {
      var i :| 0 <= i < |fs| && path <= fs[i].diff.path;
      assert (fs + gs)[i] == fs[i];
    } else if Named(gs, path) {
      var i :| 0 <= i < |gs| && path <= gs[i].diff.path;
      assert (fs + gs)[|fs| + i] == gs[i];
    }
  }

  /** What is reported below one child is in the list of the loop. */
  lemma {:induction false} ItemNamed(env: Env, shortcut: bool, bound: Value, items: seq<Item<Value>>, it: Item<Value>,
                                     path: seq<Step>, level: int, q: seq<Step>)
    requires Below(items, bound) && it in items
    requires if it.Both? then Named(Diffs(env, shortcut, Some(it.x), Some(it.y), path + [it.step], level + 1), q)
             else q == path + [it.step]
    ensures Named(ItemDiffs(env, shortcut, bound, items, path, level), q)
    decreases |items|
  {
    hide Diffs;
    var one := OneItem(env, shortcut, bound, items, path, level);
    var rest := ItemDiffs(env, shortcut, bound, items[1..], path, level);
    NamedAppend(one, rest, q);
    if items[0] == it {
      if !it.Both? {
        assert q <= one[0].diff.path;
      }
    } else {
      ItemNamed(env, shortcut, bound, items[1..], it, path, level, q);
    }
  }

  lemma NamedSame(env: Env, a: Option<Value>, b: Option<Value>, path: seq<Step>, level: int)
    requires WellTypedOpt(a) && WellTypedOpt(b) && !Same(env, a, b)
    ensures Named(Diffs(env, false, a, b, path, level), path)
  {
    hide Diffs, Same;
    NoDiffsIffSame(env, a, b, path, level);
    DiffsGenuine(env, false, a, b, path, level);
    assert path <= Diffs(env, false, a, b, path, level)[0].diff.path;
  }

  /**
    For a pair whose contents are scanned: every visited child that is missing on one side, NaN
    keys included, or not the same on both, has an entry whose path goes through it.
   */
  lemma ChildrenComplete(env: Env, a: Value, b: Value, it: Item<Value>, path: seq<Step>, level: int)
    requires WellTyped(a) && WellTyped(b) && Head(env, false, a.node, b.node).Scan?
    requires it in Items(a.node, b.node)
    ensures it.Both? ==> WellTyped(it.x) && WellTyped(it.y)
    ensures (it.Both? ==> !Same(env, Some(it.x), Some(it.y))) ==>
              Named(Diffs(env, false, Some(a), Some(b), path, level), path + [it.step])
  {
    hide Same;
    ItemsBelow(a, b);
    var items := Items(a.node, b.node);
    var k :| 0 <= k < |items| && items[k] == it;
    if it.Both? {
      if !Same(env, Some(it.x), Some(it.y)) {
        NamedSame(env, Some(it.x), Some(it.y), path + [it.step], level + 1);
        ItemNamed(env, false, a, items, it, path, level, path + [it.step]);
      }
    } else {
      ItemNamed(env, false, a, items, it, path, level, path + [it.step]);
    }
  }

  /**
    The comparer looks at the place `q`: on the way no type, error text, nil or Equal method has
    decided the pair, and every step is taken.
   */
  ghost predicate LooksAt(env: Env, a: Option<Value>, b: Option<Value>, q: seq<Step>)
    requires WellTypedOpt(a) && WellTypedOpt(b)
    decreases |q|, if a.Some? then 1 else 0, if a.Some? then a.value else LEAF
  {
    q == [] ||
    (a.Some? && b.Some? &&
     match Head(env, false, a.value.node, b.value.node)
     case Through(x, y) => LooksAt(env, x, y, q)
     case Scan =>
       ChildTyped(a.value, q[0]);
       ChildTyped(b.value, q[0]);
       Taken(a.value, q[0]) && LooksAt(env, Child(a.value, q[0]), Child(b.value, q[0]), q[1..])
     case _ => false)
  }

  /** Wherever the comparer looks, a place where the values differ is named, or something below it is. */
  lemma {:induction false} Complete(env: Env, a: Option<Value>, b: Option<Value>, q: seq<Step>,
                                    path: seq<Step>, level: int)
    requires WellTypedOpt(a) && WellTypedOpt(b) && LooksAt(env, a, b, q) && DiffersAt(env, a, b, q)
    ensures Named(Diffs(env, false, a, b, path, level), path + q)
    decreases |q|, if a.Some? then 1 else 0, if a.Some? then a.value else LEAF
  {
    if q == [] {
      assert path + q == path;
      NamedSame(env, a, b, path, level);
    } else {
      match Head(env, false, a.value.node, b.value.node)
      case Through(x, y) =>
        assert Strip(a) == Strip(x) && Strip(b) == Strip(y);
        Complete(env, x, y, q, path, level + 1);
      case Scan =>
        StepComplete(env, a.value, b.value, q, path, level);
    }
  }

  lemma {:induction false} StepComplete(env: Env, a: Value, b: Value, q: seq<Step>, path: seq<Step>, level: int)
    requires WellTyped(a) && WellTyped(b) && Head(env, false, a.node, b.node).Scan? && q != []
    requires LooksAt(env, Some(a), Some(b), q) && DiffersAt(env, Some(a), Some(b), q)
    ensures Named(Diffs(env, false, Some(a), Some(b), path, level), path + q)
    decreases |q|, 1, a, 0
  {
    hide Same;
    var s, rest := q[0], q[1..];
    ChildTyped(a, s);
    ChildTyped(b, s);
    var x, y := Child(a, s), Child(b, s);
    assert Follow(Some(a), q) == Follow(x, rest) && Follow(Some(b), q) == Follow(y, rest);
    assert x.Some? || y.Some? by {
      if x.None? && y.None? {
        NothingBelow(env, rest);
      }
    }
    var it := ChildVisited(a, b, s);
    ItemsBelow(a, b);
    if it.Both? {
      Complete(env, x, y, rest, path + [s], level + 1);
      assert path + [s] + rest == path + q;
    } else {
      assert rest == [];
      assert path + q == path + [s];
    }
    ItemNamed(env, false, a, Items(a.node, b.node), it, path, level, path + q);
  }

  lemma NothingBelow(env: Env, q: seq<Step>)
    ensures Follow(None, q) == None && Same(env, None, None)
  {
  }

  // ----- No place is named twice

  ghost predicate DistinctSteps(items: seq<Item<Value>>) {
    forall i, j | 0 <= i < j < |items| :: items[i].step == items[j].step ==> NaNStep(items[i].step)
  }

  ghost predicate FieldFrom(infos: seq<FieldInfo>, i: nat, s: Step) {
    s.FieldStep? && i <= s.index < |infos| && Compared(infos[s.index]) && s.name == infos[s.index].name
  }

  lemma FieldSteps(infos: seq<FieldInfo>, xs: seq<Value>, ys: seq<Value>, i: nat)
    requires |infos| == |xs| == |ys| && i <= |infos|
    ensures var items := FieldItems(infos, xs, ys, i);
            && (forall k | 0 <= k < |items| :: FieldFrom(infos, i, items[k].step))
            && DistinctSteps(items)
    decreases |infos| - i
  {
    if i < |infos| {
      FieldSteps(infos, xs, ys, i + 1);
    }
  }

  lemma KeySteps(xs: seq<Entry<Value>>, ys: seq<Entry<Value>>, i: nat)
    requires i <= |xs|
    ensures var items := KeyItems(xs, ys, i);
            |items| == |xs| - i && forall k | 0 <= k < |items| :: items[k].step == MapStep(xs[i + k].key)
    decreases |xs| - i
  {
    if i < |xs| {
      KeySteps(xs, ys, i + 1);
    }
  }

  /** A key only the right map has. */
  ghost predicate ExtraKey(xs: seq<Entry<Value>>, ys: seq<Entry<Value>>, i: nat, s: Step) {
    s.MapStep? && Lookup(xs, s.key).None? && exists j :: i <= j < |ys| && ys[j].key == s.key
  }

  lemma ExtraSteps(xs: seq<Entry<Value>>, ys: seq<Entry<Value>>, i: nat)
    requires i <= |ys| && DistinctKeys(ys)
    ensures var items := ExtraItems(xs, ys, i);
            (forall k | 0 <= k < |items| :: ExtraKey(xs, ys, i, items[k].step)) && DistinctSteps(items)
    decreases |ys| - i
  {
    if i < |ys| {
      ExtraSteps(xs, ys, i + 1);
      var rest := ExtraItems(xs, ys, i + 1);
      forall k | 0 <= k < |rest| ensures ExtraKey(xs, ys, i, rest[k].step) && rest[k].step != MapStep(ys[i].key) {
        assert ExtraKey(xs, ys, i + 1, rest[k].step);
      }
    }
  }

  lemma ElemSteps(xs: seq<Value>, ys: seq<Value>, i: nat)
    requires |xs| == |ys| && i <= |xs|
    ensures var items := ElemItems(xs, ys, i);
            && |items| == |xs| - i && DistinctSteps(items)
            && (forall k | 0 <= k < |items| :: items[k].step == ArrayStep(i + k))
    decreases |xs| - i
  {
    if i < |xs| {
      ElemSteps(xs, ys, i + 1);
    }
  }

  lemma SliceSteps(xs: seq<Value>, ys: seq<Value>, i: nat)
    requires i <= Max(|xs|, |ys|)
    ensures var items := SliceItems(xs, ys, i);
            && |items| == Max(|xs|, |ys|) - i && DistinctSteps(items)
            && (forall k | 0 <= k < |items| :: items[k].step == SliceStep(i + k))
    decreases Max(|xs|, |ys|) - i
  {
    if i < Max(|xs|, |ys|) {
      SliceSteps(xs, ys, i + 1);
    }
  }

  lemma MapSteps(xs: seq<Entry<Value>>, ys: seq<Entry<Value>>)
    requires DistinctKeys(xs) && DistinctKeys(ys)
    ensures DistinctSteps(KeyItems(xs, ys, 0) + ExtraItems(xs, ys, 0))
  {
    KeySteps(xs, ys, 0);
    ExtraSteps(xs, ys, 0);
    var keys, extras := KeyItems(xs, ys, 0), ExtraItems(xs, ys, 0);
    forall i, j | 0 <= i < |keys| && 0 <= j < |extras| && keys[i].step == extras[j].step
      ensures NaNStep(keys[i].step)
    {
      assert ExtraKey(xs, ys, 0, extras[j].step);
      if !xs[i].key.nan {
        LookupAt(xs, i);
      }
    }
  }

  lemma AllDistinct(a: Value, b: Value)
    requires Alike(a, b)
    ensures DistinctSteps(Items(a.node, b.node))
  {
    match a.node.body
    case Fields(xs) => FieldSteps(a.node.t.fields, xs, b.node.body.fields, 0);
    case Entries(_, _, xs) => MapSteps(xs, b.node.body.entries);
    case Elems(xs) => ElemSteps(xs, b.node.body.elems, 0);
    case Slice(_, _, xs) => SliceSteps(xs, b.node.body.items, 0);
    case _ =>
  }

  /** No two entries have the same path, unless it goes through a NaN key: paths do not tell those apart. */
  ghost predicate OncePerPlace(base: seq<Step>, fs: seq<Found>) {
    && (forall i | 0 <= i < |fs| :: base <= fs[i].diff.path)
    && (forall i, j | 0 <= i < j < |fs| && fs[i].diff.path == fs[j].diff.path :: !NaNFree(fs[i].diff.path[|base|..]))
  }

  lemma {:induction false} DistinctDiffs(env: Env, shortcut: bool, a: Option<Value>, b: Option<Value>,
                                         path: seq<Step>, level: int)
    requires WellTypedOpt(a) && WellTypedOpt(b)
    ensures OncePerPlace(path, Diffs(env, shortcut, a, b, path, level))
    decreases if a.Some? then 1 else 0, if a.Some? then a.value else LEAF, 1, 0
  {
    if a.Some? && b.Some? {
      match Head(env, shortcut, a.value.node, b.value.node)
      case Through(x, y) => DistinctDiffs(env, shortcut, x, y, path, level + 1);
      case Scan =>
        ItemsBelow(a.value, b.value);
        AllDistinct(a.value, b.value);
        DistinctItemDiffs(env, shortcut, a.value, Items(a.value.node, b.value.node), path, level);
      case _ =>
    }
  }

  ghost predicate GoesThrough(path: seq<Step>, items: seq<Item<Value>>, p: seq<Step>) {
    exists k :: 0 <= k < |items| && path + [items[k].step] <= p
  }

  lemma {:induction false} DistinctItemDiffs(env: Env, shortcut: bool, bound: Value, items: seq<Item<Value>>,
                                             path: seq<Step>, level: int)
    requires Below(items, bound) && DistinctSteps(items)
    ensures var fs := ItemDiffs(env, shortcut, bound, items, path, level);
            OncePerPlace(path, fs) && forall i | 0 <= i < |fs| :: GoesThrough(path, items, fs[i].diff.path)
    decreases 1, bound, 0, |items|
  {
    hide Diffs;
    if items != [] {
      var it := items[0];
      var one := OneItem(env, shortcut, bound, items, path, level);
      var rest := ItemDiffs(env, shortcut, bound, items[1..], path, level);
      if it.Both? {
        DistinctDiffs(env, shortcut, Some(it.x), Some(it.y), path + [it.step], level + 1);
      }
      DistinctItemDiffs(env, shortcut, bound, items[1..], path, level);
      JoinDistinct(items, path, one, rest);
    }
  }

  lemma PrefixStep(path: seq<Step>, s: Step, p: seq<Step>)
    requires path + [s] <= p
    ensures path <= p && p[|path|] == s && p[|path|..] == [s] + p[|path| + 1..]
  {
    assert p[|path|] == (path + [s])[|path|];
  }

  lemma JoinDistinct(items: seq<Item<Value>>, path: seq<Step>, one: seq<Found>, rest: seq<Found>)
    requires items != [] && DistinctSteps(items)
    requires OncePerPlace(path + [items[0].step], one) && OncePerPlace(path, rest)
    requires forall i | 0 <= i < |rest| :: GoesThrough(path, items[1..], rest[i].diff.path)
    ensures OncePerPlace(path, one + rest)
    ensures forall i | 0 <= i < |one + rest| :: GoesThrough(path, items, (one + rest)[i].diff.path)
  {
    var s, fs := items[0].step, one + rest;
    forall i | 0 <= i < |fs| ensures path <= fs[i].diff.path && GoesThrough(path, items, fs[i].diff.path) {
      if i < |one| {
        PrefixStep(path, s, fs[i].diff.path);
      } else {
        var k :| 0 <= k < |items[1..]| && path + [items[1..][k].step] <= fs[i].diff.path;
        assert path + [items[k + 1].step] <= fs[i].diff.path;
      }
    }
    forall i, j | 0 <= i < j < |fs| && fs[i].diff.path == fs[j].diff.path
      ensures !NaNFree(fs[i].diff.path[|path|..])
    {
      var p := fs[i].diff.path;
      if i < |one| {
        PrefixStep(path, s, p);
        if j < |one| {
          assert !NaNFree(p[|path + [s]|..]);
          NaNFreeTail(s, p[|path| + 1..]);
        } else {
          assert GoesThrough(path, items[1..], rest[j - |one|].diff.path);
          var k :| 0 <= k < |items[1..]| && path + [items[1..][k].step] <= p;
          PrefixStep(path, items[1..][k].step, p);
          assert items[k + 1].step == s;
          NaNFreeTail(s, p[|path| + 1..]);
        }
      } else {
        assert rest[i - |one|].diff.path == rest[j - |one|].diff.path;
      }
    }
  }

  lemma NaNFreeTail(s: Step, q: seq<Step>)
    ensures NaNFree([s] + q) <==> !NaNStep(s) && NaNFree(q)
  {
    assert ([s] + q)[0] == s && ([s] + q)[1..] == q;
    assert forall i | 0 <= i < |q| :: q[i] == ([s] + q)[i + 1];
  }

  // ----- What a caller of Equal gets

  lemma {:induction false} ShortIsAll(maxDepth: int, fs: seq<Found>)
    requires maxDepth <= 0
    ensures |Kept(maxDepth, fs)| == |fs|
    ensures forall i | 0 <= i < |fs| :: Kept(maxDepth, fs)[i] == fs[i].diff
  {
    if fs != [] {
      ShortIsAll(maxDepth, fs[1..]);
    }
  }

  /**
    Without a depth limit, a result shorter than MaxDiff is complete: wherever the comparer looks, a
    place where the values differ is named by an entry at that place or below it.
   */
  lemma ShortAnswerComplete(env: Env, cfg: Config, mem: Memory, a: Value, b: Value, q: seq<Step>) returns (i: nat)
    requires WellTyped(a) && WellTyped(b) && NoNaN(a) && Backed(a, mem) && Backed(b, mem) && EqualReflexive(env)
    requires cfg.maxDepth <= 0 && |Answer(env, cfg, Some(a), Some(b))| < cfg.maxDiff
    requires LooksAt(env, Some(a), Some(b), q) && DiffersAt(env, Some(a), Some(b), q)
    ensures i < |Answer(env, cfg, Some(a), Some(b))| && q <= Answer(env, cfg, Some(a), Some(b))[i].path
  {
    hide Diffs, LooksAt, DiffersAt;
    var fs := Diffs(env, true, Some(a), Some(b), [], 0);
    ShortcutsChangeNothing(env, mem, Some(a), Some(b), [], 0);
    Complete(env, Some(a), Some(b), q, [], 0);
    ShortIsAll(cfg.maxDepth, fs);
    assert [] + q == q;
    i :| 0 <= i < |fs| && [] + q <= fs[i].diff.path;
  }

  ghost predicate OneEach(ds: seq<Diff>) {
    forall i, j | 0 <= i < j < |ds| && ds[i].path == ds[j].path :: !NaNFree(ds[i].path)
  }

  lemma {:induction false} KeptOnce(maxDepth: int, fs: seq<Found>)
    requires OncePerPlace([], fs)
    ensures OneEach(Kept(maxDepth, fs))
  {
    if fs != [] {
      var ds, rest := Kept(maxDepth, fs), Kept(maxDepth, fs[1..]);
      var d := fs[0].diff;
      KeptOnce(maxDepth, fs[1..]);
      forall j | 0 <= j < |rest| && d.path == rest[j].path ensures !NaNFree(d.path) {
        var k := KeptFrom(maxDepth, fs[1..], j);
        assert fs[k + 1].diff == rest[j];
        assert d.path[0..] == d.path;
      }
      forall i, j | 0 <= i < j < |ds| && ds[i].path == ds[j].path && ds != rest ensures !NaNFree(ds[i].path) {
        assert ds == [d] + rest && ds[j] == rest[j - 1];
        assert i > 0 ==> ds[i] == rest[i - 1];
      }
    }
  }

  /** Without NaN keys on the paths no two entries of a result are for the same place. */
  lemma AnswerOncePerPlace(env: Env, cfg: Config, a: Value, b: Value, i: nat, j: nat)
    requires WellTyped(a) && WellTyped(b)
    requires i < j < |Answer(env, cfg, Some(a), Some(b))|
    requires NaNFree(Answer(env, cfg, Some(a), Some(b))[i].path)
    ensures Answer(env, cfg, Some(a), Some(b))[i].path != Answer(env, cfg, Some(a), Some(b))[j].path
  {
    hide Diffs;
    var fs := Diffs(env, true, Some(a), Some(b), [], 0);
    DistinctDiffs(env, true, Some(a), Some(b), [], 0);
    KeptOnce(cfg.maxDepth, fs);
    var ds := Kept(cfg.maxDepth, fs);
    assert ds[i] == Take(ds, cfg.maxDiff)[i] && ds[j] == Take(ds, cfg.maxDiff)[j];
  }
}
