/**
  Two facts that need the contents reached from a pair: every recorded path leads to a place where
  the two values really differ, and the same-pointer shortcuts change no difference list.
 */
module DeepPaths {
  import opened Common
  import opened DeepValues
  import opened DeepDiff
  import opened DeepCap
  import opened DeepEquality

  // ----- Following a recorded path

  /** Look through pointers and interfaces, which add no step to a path. */
  function Strip(v: Option<Value>): Option<Value>
    decreases if v.Some? then 1 else 0, if v.Some? then v.value else LEAF
  {
    if v.Some? && v.value.node.body.Elem? then Strip(v.value.node.body.target) else v
  }

  function Follow(v: Option<Value>, path: seq<Step>): Option<Value>
    decreases |path|
  {
    if path == [] then v
    else
      var w := Strip(v);
      if w.None? then None else Follow(Child(w.value, path[0]), path[1..])
  }

  lemma {:induction false} StripTyped(v: Option<Value>)
    requires WellTypedOpt(v)
    ensures WellTypedOpt(Strip(v))
    decreases if v.Some? then 1 else 0, if v.Some? then v.value else LEAF
  {
    if v.Some? && v.value.node.body.Elem? {
      StripTyped(v.value.node.body.target);
    }
  }

  lemma {:induction false} FollowTyped(v: Option<Value>, path: seq<Step>)
    requires WellTypedOpt(v)
    ensures WellTypedOpt(Follow(v, path))
    decreases |path|
  {
    if path != [] {
      StripTyped(v);
      var w := Strip(v);
      if w.Some? {
        if Child(w.value, path[0]).Some? {
          ChildSmaller(w.value, path[0]);
        }
        FollowTyped(Child(w.value, path[0]), path[1..]);
      }
    }
  }

  /** What the path leads to in the two values is not the same, or is there in only one of them. */
  ghost predicate DiffersAt(env: Env, a: Option<Value>, b: Option<Value>, path: seq<Step>)
    requires WellTypedOpt(a) && WellTypedOpt(b)
  {
    FollowTyped(a, path);
    FollowTyped(b, path);
    !Same(env, Follow(a, path), Follow(b, path))
  }

  predicate NaNStep(s: Step) {
    s.MapStep? && s.key.nan
  }

  predicate NaNFree(path: seq<Step>) {
    forall i | 0 <= i < |path| :: !NaNStep(path[i])
  }

  /**
    A text that may stand for `v` in an entry: one of the notes for a value that is not there;
    otherwise what is printed for the value, its type, its error text or the note for a nil map or
    slice, for the value itself or for what it points to.
   */
  ghost predicate Describes(env: Env, v: Option<Value>, s: Shown)
    decreases if v.Some? then 1 else 0, if v.Some? then v.value else LEAF
  {
    match v
    case None => s in {NIL_POINTER, NO_KEY, NO_VALUE, INVALID}
    case Some(x) =>
      || s in {Printed(x.node.id), TypeName(x.node.t), Text(env.errorText(x.node.id))}
      || (s == NIL_MAP && x.node.body.Entries? && x.node.body.isNil)
      || (s == NIL_SLICE && x.node.body.Slice? && x.node.body.isNil)
      || (x.node.body.Elem? && Describes(env, x.node.body.target, s))
  }

  /**
    The entry `d` tells the truth about `a` and `b` at the path `q`: the left text is about `a`, the
    right one about `b`, and they differ there, unless the path goes through a NaN key, which
    cannot be followed in any map.
   */
  ghost predicate TrueAt(env: Env, a: Option<Value>, b: Option<Value>, d: Diff, q: seq<Step>)
    requires WellTypedOpt(a) && WellTypedOpt(b)
  {
    && (DiffersAt(env, a, b, q) <==> NaNFree(q))
    && Describes(env, Follow(a, q), d.left)
    && Describes(env, Follow(b, q), d.right)
  }

  /** Every entry of `fs` extends `base` by a path at which it is true of `a` and `b`. */
  ghost predicate Genuine(env: Env, a: Option<Value>, b: Option<Value>, base: seq<Step>, fs: seq<Found>)
    requires WellTypedOpt(a) && WellTypedOpt(b)
  {
    forall i | 0 <= i < |fs| :: base <= fs[i].diff.path && TrueAt(env, a, b, fs[i].diff, fs[i].diff.path[|base|..])
  }

  /** A child reported for one side only is there on that side, unless it hangs on a NaN key. */
  ghost predicate SidesPresent(items: seq<Item<Value>>) {
    forall i | 0 <= i < |items| ::
      && (items[i].Both? ==> !NaNStep(items[i].step))
      && (!items[i].Both? && items[i].step.MapStep? ==> items[i].note == NO_KEY)
      && (!items[i].Both? && !items[i].step.MapStep? ==> items[i].step.SliceStep? && items[i].note == NO_VALUE)
      && (items[i].OnlyLeft? ==> (items[i].l.Some? <==> !NaNStep(items[i].step)))
      && (items[i].OnlyRight? ==> (items[i].r.Some? <==> !NaNStep(items[i].step)))
  }

  lemma ChildTyped(v: Value, s: Step)
    requires WellTyped(v)
    ensures WellTypedOpt(Child(v, s))
  {
    if Child(v, s).Some? {
      ChildSmaller(v, s);
    }
  }

  /** A path that starts with one step of a scanned pair goes on in the children of that pair. */
  lemma StepFirst(env: Env, a: Value, b: Value, s: Step, base: seq<Step>, d: Diff)
    requires WellTyped(a) && WellTyped(b) && !a.node.body.Elem? && !b.node.body.Elem? && !NaNStep(s)
    requires base + [s] <= d.path
    requires WellTypedOpt(Child(a, s)) && WellTypedOpt(Child(b, s))
    requires TrueAt(env, Child(a, s), Child(b, s), d, d.path[|base| + 1..])
    ensures base <= d.path && TrueAt(env, Some(a), Some(b), d, d.path[|base|..])
  {
    var q := d.path[|base|..];
    assert q[0] == (base + [s])[|base|] == s && q[1..] == d.path[|base| + 1..];
    assert q == [s] + q[1..];
  }

  /** A child that only one side has. */
  lemma LoneTrue(env: Env, a: Value, b: Value, it: Item<Value>, base: seq<Step>)
    requires WellTyped(a) && WellTyped(b) && !a.node.body.Elem? && !b.node.body.Elem?
    requires !it.Both? && ItemOK(a, b, it) && SidesPresent([it])
    ensures TrueAt(env, Some(a), Some(b), Lone(it, base), Lone(it, base).path[|base|..])
  {
    var q := Lone(it, base).path[|base|..];
    assert q == [it.step] && q[1..] == [] && it == [it][0];
    ChildTyped(a, it.step);
    ChildTyped(b, it.step);
    assert Follow(Some(a), q) == Child(a, it.step) && Follow(Some(b), q) == Child(b, it.step);
  }

  lemma KeysPresent(xs: seq<Entry<Value>>, ys: seq<Entry<Value>>, i: nat)
    requires i <= |xs| && DistinctKeys(xs)
    ensures SidesPresent(KeyItems(xs, ys, i))
    decreases |xs| - i
  {
    if i < |xs| {
      if !xs[i].key.nan {
        LookupAt(xs, i);
      }
      KeysPresent(xs, ys, i + 1);
    }
  }

  lemma ExtrasPresent(xs: seq<Entry<Value>>, ys: seq<Entry<Value>>, i: nat)
    requires i <= |ys| && DistinctKeys(ys)
    ensures SidesPresent(ExtraItems(xs, ys, i))
    decreases |ys| - i
  {
    if i < |ys| {
      if !ys[i].key.nan {
        LookupAt(ys, i);
      }
      ExtrasPresent(xs, ys, i + 1);
    }
  }

  lemma FieldsPresent(infos: seq<FieldInfo>, xs: seq<Value>, ys: seq<Value>, i: nat)
    requires |infos| == |xs| == |ys| && i <= |infos|
    ensures SidesPresent(FieldItems(infos, xs, ys, i))
    decreases |infos| - i
  {
  }

  lemma ElemsPresent(xs: seq<Value>, ys: seq<Value>, i: nat)
    requires |xs| == |ys| && i <= |xs|
    ensures SidesPresent(ElemItems(xs, ys, i))
    decreases |xs| - i
  {
  }

  lemma SlicesPresent(xs: seq<Value>, ys: seq<Value>, i: nat)
    requires i <= Max(|xs|, |ys|)
    ensures SidesPresent(SliceItems(xs, ys, i))
    decreases Max(|xs|, |ys|) - i
  {
  }

  lemma AllPresent(a: Value, b: Value)
    requires Alike(a, b)
    ensures SidesPresent(Items(a.node, b.node))
  {
    match a.node.body
    case Fields(xs) => FieldsPresent(a.node.t.fields, xs, b.node.body.fields, 0);
    case Entries(_, _, xs) =>
      KeysPresent(xs, b.node.body.entries, 0);
      ExtrasPresent(xs, b.node.body.entries, 0);
    case Elems(xs) => ElemsPresent(xs, b.node.body.elems, 0);
    case Slice(_, _, xs) => SlicesPresent(xs, b.node.body.items, 0);
    case _ =>
  }

  lemma {:induction false} DiffsGenuine(env: Env, shortcut: bool, a: Option<Value>, b: Option<Value>,
                                        path: seq<Step>, level: int)
    requires WellTypedOpt(a) && WellTypedOpt(b)
    ensures Genuine(env, a, b, path, Diffs(env, shortcut, a, b, path, level))
    decreases if a.Some? then 1 else 0, if a.Some? then a.value else LEAF, 1, 0
  {
    assert path[|path|..] == [];
    var fs := Diffs(env, shortcut, a, b, path, level);
    if a.Some? && b.Some? {
      match Head(env, shortcut, a.value.node, b.value.node)
      case Quiet =>
      case Report(_, _) => assert TrueAt(env, a, b, fs[0].diff, []);
      case Through(x, y) =>
        DiffsGenuine(env, shortcut, x, y, path, level + 1);
        forall i | 0 <= i < |fs| ensures TrueAt(env, a, b, fs[i].diff, fs[i].diff.path[|path|..]) {
          ThroughTrue(env, a.value, b.value, fs[i].diff, fs[i].diff.path[|path|..]);
        }
      case Scan =>
        AllItemsOK(a.value, b.value);
        AllPresent(a.value, b.value);
        ItemsBelow(a.value, b.value);
        ItemDiffsGenuine(env, shortcut, a.value, b.value, Items(a.value.node, b.value.node), path, level);
    } else if a.Some? || b.Some? {
      assert TrueAt(env, a, b, fs[0].diff, []);
    }
  }

  /** What is true of two targets is true of the pointers to them. */
  lemma ThroughTrue(env: Env, a: Value, b: Value, d: Diff, q: seq<Step>)
    requires Alike(a, b) && a.node.body.Elem? && !ErrorsDiffer(env, a.node, b.node)
    requires TrueAt(env, a.node.body.target, b.node.body.target, d, q)
    ensures TrueAt(env, Some(a), Some(b), d, q)
  {
    var x, y := a.node.body.target, b.node.body.target;
    if q != [] {
      assert Strip(Some(a)) == Strip(x) && Strip(Some(b)) == Strip(y);
    }
  }

  lemma {:induction false} ItemDiffsGenuine(env: Env, shortcut: bool, a: Value, b: Value, items: seq<Item<Value>>,
                                            path: seq<Step>, level: int)
    requires WellTyped(a) && WellTyped(b)
    requires !a.node.body.Elem? && !b.node.body.Elem?
    requires Below(items, a) && ItemsOK(a, b, items) && SidesPresent(items)
    ensures Genuine(env, Some(a), Some(b), path, ItemDiffs(env, shortcut, a, items, path, level))
    decreases 1, a, 0, |items|
  {
    hide TrueAt, Diffs;
    if items != [] {
      var it := items[0];
      assert ItemOK(a, b, it);
      ChildTyped(a, it.step);
      ChildTyped(b, it.step);
      var one := OneItem(env, shortcut, a, items, path, level);
      if it.Both? {
        DiffsGenuine(env, shortcut, Some(it.x), Some(it.y), path + [it.step], level + 1);
        forall i | 0 <= i < |one|
          ensures path <= one[i].diff.path && TrueAt(env, Some(a), Some(b), one[i].diff, one[i].diff.path[|path|..])
        {
          StepFirst(env, a, b, it.step, path, one[i].diff);
        }
      } else {
        LoneTrue(env, a, b, it, path);
      }
      ItemDiffsGenuine(env, shortcut, a, b, items[1..], path, level);
    }
  }

  /**
    Corollary for callers: an entry Equal returns for two values names a place where they differ,
    except that the place of a NaN key cannot be found again, and shows each side on its own side.
   */
  lemma AnswerGenuine(env: Env, cfg: Config, a: Value, b: Value, i: nat)
    requires WellTyped(a) && WellTyped(b)
    requires i < |Answer(env, cfg, Some(a), Some(b))|
    ensures var d := Answer(env, cfg, Some(a), Some(b))[i]; TrueAt(env, Some(a), Some(b), d, d.path)
  {
    var fs := Diffs(env, true, Some(a), Some(b), [], 0);
    DiffsGenuine(env, true, Some(a), Some(b), [], 0);
    var k := KeptFrom(cfg.maxDepth, fs, i);
    assert fs[k].diff.path[0..] == fs[k].diff.path;
  }

  lemma {:induction false} KeptFrom(maxDepth: int, fs: seq<Found>, i: nat) returns (k: nat)
    requires i < |Kept(maxDepth, fs)|
    ensures k < |fs| && fs[k].diff == Kept(maxDepth, fs)[i]
  {
    if maxDepth <= 0 || fs[0].level <= maxDepth {
      if i == 0 {
        return 0;
      }
      k := KeptFrom(maxDepth, fs[1..], i - 1);
    } else {
      k := KeptFrom(maxDepth, fs[1..], i);
    }
    k := k + 1;
  }

  // ----- The same-pointer shortcuts

  /** Go's memory: what a map address, or a slice address and length, stands for. */
  datatype Memory = Memory(maps: map<(GoType, nat), seq<Entry<Value>>>, slices: map<(GoType, nat, nat), seq<Value>>)

  /** Every map and slice in `v` shows what memory holds at its address. */
  ghost predicate Backed(v: Value, mem: Memory)
    decreases v
  {
    match v.node.body
    case Elem(x) => x.Some? ==> Backed(x.value, mem)
    case Fields(xs) => forall i | 0 <= i < |xs| :: Backed(xs[i], mem)
    case Entries(isNil, addr, es) =>
      && (!isNil ==> (v.node.t, addr) in mem.maps && mem.maps[(v.node.t, addr)] == es)
      && forall i | 0 <= i < |es| :: Backed(es[i].value, mem)
    case Elems(xs) => forall i | 0 <= i < |xs| :: Backed(xs[i], mem)
    case Slice(isNil, addr, xs) =>
      && (!isNil ==> (v.node.t, addr, |xs|) in mem.slices && mem.slices[(v.node.t, addr, |xs|)] == xs)
      && forall i | 0 <= i < |xs| :: Backed(xs[i], mem)
    case _ => true
  }

  ghost predicate BackedOpt(v: Option<Value>, mem: Memory) {
    v.Some? ==> Backed(v.value, mem)
  }

  lemma ChildBacked(v: Value, s: Step, mem: Memory)
    requires WellTyped(v) && Backed(v, mem)
    ensures BackedOpt(Child(v, s), mem)
  {
    if v.node.body.Entries? && s.MapStep? {
      var i := LookupIndex(v.node.body.entries, s.key);
    }
  }

  /** A child that is compared hangs on no NaN key, and nor does anything below it. */
  ghost predicate ItemsNoNaN(items: seq<Item<Value>>, bound: Value)
    requires Below(items, bound)
  {
    forall i | 0 <= i < |items| && items[i].Both? :: NoNaN(items[i].x)
  }

  lemma FieldsNoNaN(a: Value, b: Value, i: nat)
    requires Alike(a, b) && a.node.body.Fields? && !a.node.t.usesEqual && NoNaN(a) && i <= |a.node.t.fields|
    ensures var items := FieldItems(a.node.t.fields, a.node.body.fields, b.node.body.fields, i);
            Below(items, a) && ItemsNoNaN(items, a)
    decreases |a.node.t.fields| - i
  {
    FieldsOK(a, b, i);
    OKBelow(a, b, FieldItems(a.node.t.fields, a.node.body.fields, b.node.body.fields, i));
    if i < |a.node.t.fields| {
      FieldsNoNaN(a, b, i + 1);
    }
  }

  lemma ChildNoNaN(v: Value, s: Step)
    requires WellTyped(v) && NoNaN(v) && !v.node.body.Fields?
    ensures WellTypedOpt(Child(v, s)) && NoNaNOpt(Child(v, s))
  {
    ChildTyped(v, s);
    if v.node.body.Entries? && s.MapStep? {
      var k := LookupIndex(v.node.body.entries, s.key);
    }
  }

  lemma AllNoNaN(env: Env, a: Value, b: Value)
    requires WellTyped(a) && WellTyped(b) && NoNaN(a) && Head(env, true, a.node, b.node).Scan?
    ensures Below(Items(a.node, b.node), a) && ItemsNoNaN(Items(a.node, b.node), a)
  {
    hide NoNaN, FieldItems;
    ItemsBelow(a, b);
    var items := Items(a.node, b.node);
    if a.node.body.Fields? {
      FieldsNoNaN(a, b, 0);
    } else {
      AllItemsOK(a, b);
      forall i | 0 <= i < |items| && items[i].Both? ensures NoNaN(items[i].x) {
        assert ItemOK(a, b, items[i]);
        ChildNoNaN(a, items[i].step);
      }
    }
  }

  /** A pair the shortcuts skip: same contents, hence nothing to report. */
  lemma SharedIsSame(env: Env, a: Value, b: Value)
    requires Alike(a, b) && NoNaN(a) && EqualReflexive(env) && !ErrorsDiffer(env, a.node, b.node)
    requires a.node.body.Entries? || a.node.body.Slice?
    requires a.node.body == b.node.body
    ensures Same(env, Some(a), Some(b))
  {
    ReorderedSelf(b);
    ReorderedSame(env, b, b, false);
  }

  /** On values that share one memory the shortcuts give the list that comparing contents gives. */
  lemma {:induction false} ShortcutsChangeNothing(env: Env, mem: Memory, a: Option<Value>, b: Option<Value>,
                                                  path: seq<Step>, level: int)
    requires WellTypedOpt(a) && WellTypedOpt(b) && NoNaNOpt(a)
    requires BackedOpt(a, mem) && BackedOpt(b, mem) && EqualReflexive(env)
    ensures Diffs(env, true, a, b, path, level) == Diffs(env, false, a, b, path, level)
    decreases if a.Some? then 1 else 0, if a.Some? then a.value else LEAF, 1, 0
  {
    if a.Some? && b.Some? {
      var m, n := a.value.node, b.value.node;
      match Head(env, true, m, n)
      case Through(x, y) => ShortcutsChangeNothing(env, mem, x, y, path, level + 1);
      case Scan =>
        AllItemsOK(a.value, b.value);
        AllNoNaN(env, a.value, b.value);
        ItemShortcuts(env, mem, a.value, b.value, Items(m, n), path, level);
      case Report(_, _) =>
      case Quiet =>
        if Head(env, false, m, n).Scan? {
          assert m.body.Entries? ==> m.body.entries == n.body.entries;
          assert m.body.Slice? ==> m.body.items == n.body.items;
          SharedIsSame(env, a.value, b.value);
          NoDiffsIffSame(env, a, b, path, level);
        }
    }
  }

  lemma {:induction false} ItemShortcuts(env: Env, mem: Memory, a: Value, b: Value, items: seq<Item<Value>>,
                                         path: seq<Step>, level: int)
    requires WellTyped(a) && WellTyped(b) && Backed(a, mem) && Backed(b, mem)
    requires Below(items, a) && ItemsOK(a, b, items) && ItemsNoNaN(items, a) && EqualReflexive(env)
    ensures ItemDiffs(env, true, a, items, path, level) == ItemDiffs(env, false, a, items, path, level)
    decreases 1, a, 0, |items|
  {
    if items != [] {
      var it := items[0];
      assert ItemOK(a, b, it);
      if it.Both? {
        ChildBacked(a, it.step, mem);
        ChildBacked(b, it.step, mem);
        ShortcutsChangeNothing(env, mem, Some(it.x), Some(it.y), path + [it.step], level + 1);
      }
      ItemShortcuts(env, mem, a, b, items[1..], path, level);
    }
  }

  /**
    What Equal's nil result means: with no depth limit and a cap of at least one, no differences
    are returned exactly when the values are the same.
   */
  lemma NilAnswerIffSame(env: Env, cfg: Config, mem: Memory, a: Option<Value>, b: Option<Value>)
    requires WellTypedOpt(a) && WellTypedOpt(b) && NoNaNOpt(a)
    requires BackedOpt(a, mem) && BackedOpt(b, mem) && EqualReflexive(env)
    requires cfg.maxDiff >= 1 && cfg.maxDepth <= 0
    ensures Answer(env, cfg, a, b) == [] <==> Same(env, a, b)
  {
    ShortcutsChangeNothing(env, mem, a, b, [], 0);
    NoDiffsIffSame(env, a, b, [], 0);
    NothingKept(cfg.maxDepth, Diffs(env, true, a, b, [], 0));
  }

  lemma NothingKept(maxDepth: int, fs: seq<Found>)
    requires maxDepth <= 0
    ensures Kept(maxDepth, fs) == [] <==> fs == []
  {
  }

  /** Comparing a value with itself reports nothing, NaN keys or not: shared maps are not looked into. */
  lemma {:induction false} SelfAnswersNil(env: Env, a: Option<Value>, path: seq<Step>, level: int)
    requires WellTypedOpt(a) && EqualReflexive(env)
    ensures Diffs(env, true, a, a, path, level) == []
    decreases if a.Some? then 1 else 0, if a.Some? then a.value else LEAF, 1, 0
  {
    if a.Some? {
      match Head(env, true, a.value.node, a.value.node)
      case Through(x, _) => SelfAnswersNil(env, x, path, level + 1);
      case Scan =>
        ItemsBelow(a.value, a.value);
        SelfItemsPaired(a.value);
        SelfItems(env, a.value, Items(a.value.node, a.value.node), path, level);
      case _ =>
    }
  }

  ghost predicate SelfPaired(items: seq<Item<Value>>) {
    forall i | 0 <= i < |items| :: items[i].Both? && items[i].x == items[i].y
  }

  lemma SelfFields(infos: seq<FieldInfo>, xs: seq<Value>, i: nat)
    requires |infos| == |xs| && i <= |xs|
    ensures SelfPaired(FieldItems(infos, xs, xs, i))
    decreases |xs| - i
  {
  }

  lemma SelfElems(xs: seq<Value>, i: nat)
    requires i <= |xs|
    ensures SelfPaired(ElemItems(xs, xs, i))
    decreases |xs| - i
  {
  }

  lemma SelfItemsPaired(a: Value)
    requires WellTyped(a) && (a.node.body.Fields? || a.node.body.Elems?)
    ensures SelfPaired(Items(a.node, a.node))
  {
    match a.node.body
    case Fields(xs) => SelfFields(a.node.t.fields, xs, 0);
    case Elems(xs) => SelfElems(xs, 0);
  }

  lemma {:induction false} SelfItems(env: Env, bound: Value, items: seq<Item<Value>>, path: seq<Step>, level: int)
    requires Below(items, bound) && SelfPaired(items) && EqualReflexive(env)
    ensures ItemDiffs(env, true, bound, items, path, level) == []
    decreases 1, bound, 0, |items|
  {
    if items != [] {
      SelfAnswersNil(env, Some(items[0].x), path + [items[0].step], level + 1);
      SelfItems(env, bound, items[1..], path, level);
    }
  }

  ghost predicate NilIsSame(env: Env, cfg: Config, a: Value, b: Value)
    requires WellTyped(a) && WellTyped(b)
  {
    Answer(env, cfg, Some(a), Some(b)) == [] <==> Same(env, Some(a), Some(b))
  }

  /**
    Exactly when a nil result can be trusted for `a` against everything in the same memory: when no
    map that is looked into below `a` has a NaN key. Otherwise `a` compared with itself is the
    counterexample: nil by the shortcut, though a NaN key is never found.
   */
  lemma NilTrustedIff(env: Env, cfg: Config, mem: Memory, a: Value)
    requires WellTyped(a) && Backed(a, mem) && EqualReflexive(env)
    requires cfg.maxDiff >= 1 && cfg.maxDepth <= 0
    ensures (forall b | WellTyped(b) && Backed(b, mem) :: NilIsSame(env, cfg, a, b)) <==> NoNaN(a)
  {
    if NoNaN(a) {
      forall b | WellTyped(b) && Backed(b, mem) ensures NilIsSame(env, cfg, a, b) {
        NilAnswerIffSame(env, cfg, mem, Some(a), Some(b));
      }
    } else {
      SelfAnswersNil(env, Some(a), [], 0);
      SameReflexiveIff(env, a);
      assert !NilIsSame(env, cfg, a, a);
    }
  }

  /**
    A nil result does not depend on the run: neither on the orders in which it lists the keys of
    maps nor on where maps and slices are.
   */
  lemma NilAnswerAcrossRuns(env: Env, cfg: Config, mem: Memory, mem': Memory, a: Value, a': Value, b: Value, b': Value)
    requires WellTyped(a) && WellTyped(a') && WellTyped(b) && WellTyped(b') && EqualIsEquivalence(env)
    requires Backed(a, mem) && Backed(b, mem) && Backed(a', mem') && Backed(b', mem') && NoNaN(a)
    requires Reordered(a, a', true) && Reordered(b, b', true)
    requires cfg.maxDiff >= 1 && cfg.maxDepth <= 0
    ensures Answer(env, cfg, Some(a), Some(b)) == [] <==> Answer(env, cfg, Some(a'), Some(b')) == []
  {
    hide Answer, Same, Reordered, NoNaN, Backed;
    ReorderedNoNaN(a, a', true);
    NilAnswerIffSame(env, cfg, mem, Some(a), Some(b));
    NilAnswerIffSame(env, cfg, mem', Some(a'), Some(b'));
    MapOrderIrrelevant(env, a, a', b, b', true);
  }
}
