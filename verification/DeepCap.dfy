/** The capped run is the beginning of the full difference list. */
module DeepCap {
  import opened Common
  import opened DeepValues
  import opened DeepDiff

  /** The entries of `fs` recorded at a level the depth limit lets through, in order. */
  ghost function Kept(maxDepth: int, fs: seq<Found>): seq<Diff> {
    if fs == [] then []
    else if maxDepth <= 0 || fs[0].level <= maxDepth then [fs[0].diff] + Kept(maxDepth, fs[1..])
    else Kept(maxDepth, fs[1..])
  }

  lemma {:induction false} KeptAppend(maxDepth: int, fs: seq<Found>, gs: seq<Found>)
    ensures Kept(maxDepth, fs + gs) == Kept(maxDepth, fs) + Kept(maxDepth, gs)
  {
    if fs == [] {
      assert fs + gs == gs;
    } else {
      KeptAppend(maxDepth, fs[1..], gs);
      assert (fs + gs)[0] == fs[0] && (fs + gs)[1..] == fs[1..] + gs;
      var k, l := Kept(maxDepth, fs[1..]), Kept(maxDepth, gs);
      assert [fs[0].diff] + (k + l) == ([fs[0].diff] + k) + l;
    }
  }

  lemma KeptOne(maxDepth: int, f: Found)
    ensures Kept(maxDepth, [f]) == if maxDepth <= 0 || f.level <= maxDepth then [f.diff] else []
  {
    assert [f][1..] == [];
  }

  ghost predicate NotAbove(level: int, fs: seq<Found>) {
    forall i | 0 <= i < |fs| :: level <= fs[i].level
  }

  lemma KeptNone(maxDepth: int, level: int, fs: seq<Found>)
    requires 0 < maxDepth < level && NotAbove(level, fs)
    ensures Kept(maxDepth, fs) == []
  {
  }

  /** A call entered at a level records nothing at a smaller one. */
  lemma {:induction false} LevelsGrow(env: Env, a: Option<Value>, b: Option<Value>, path: seq<Step>, level: int)
    requires WellTypedOpt(a) && WellTypedOpt(b)
    ensures NotAbove(level, Diffs(env, true, a, b, path, level))
    decreases if a.Some? then 1 else 0, if a.Some? then a.value else LEAF, 1, 0
  {
    if a.Some? && b.Some? {
      match Head(env, true, a.value.node, b.value.node)
      case Through(x, y) => LevelsGrow(env, x, y, path, level + 1);
      case Scan =>
        ItemsBelow(a.value, b.value);
        ItemLevelsGrow(env, a.value, Items(a.value.node, b.value.node), path, level);
      case _ =>
    }
  }

  lemma {:induction false} ItemLevelsGrow(env: Env, bound: Value, items: seq<Item<Value>>, path: seq<Step>, level: int)
    requires Below(items, bound)
    ensures NotAbove(level, ItemDiffs(env, true, bound, items, path, level))
    decreases 1, bound, 0, |items|
  {
    if items != [] {
      var it := items[0];
      if it.Both? {
        LevelsGrow(env, Some(it.x), Some(it.y), path + [it.step], level + 1);
      }
      ItemLevelsGrow(env, bound, items[1..], path, level);
    }
  }

  ghost function Wanted(env: Env, cfg: Config, a: Option<Value>, b: Option<Value>,
                        path: seq<Step>, level: int): seq<Diff>
    requires WellTypedOpt(a) && WellTypedOpt(b)
  {
    Kept(cfg.maxDepth, Diffs(env, true, a, b, path, level))
  }

  /** With room left, a run gives exactly the first entries the depth limit lets through. */
  lemma {:induction false} RunIsPrefix(env: Env, cfg: Config, a: Option<Value>, b: Option<Value>,
                                       path: seq<Step>, level: int, room: int)
    requires WellTypedOpt(a) && WellTypedOpt(b)
    requires room >= 1
    ensures Run(env, cfg, a, b, path, level, room) == Take(Wanted(env, cfg, a, b, path, level), room)
    decreases if a.Some? then 1 else 0, if a.Some? then a.value else LEAF, 1, 0
  {
    if TooDeep(cfg, level) {
      LevelsGrow(env, a, b, path, level);
      KeptNone(cfg.maxDepth, level, Diffs(env, true, a, b, path, level));
    } else if a.None? || b.None? {
      if !(a.None? && b.None?) {
        KeptOne(cfg.maxDepth, Found(level, HalfNil(a, b, path)[0]));
      }
    } else {
      match Head(env, true, a.value.node, b.value.node)
      case Report(l, r) => KeptOne(cfg.maxDepth, Found(level, Diff(path, l, r)));
      case Through(x, y) => RunIsPrefix(env, cfg, x, y, path, level + 1, room);
      case Scan =>
        ItemsBelow(a.value, b.value);
        RunItemsIsPrefix(env, cfg, a.value, Items(a.value.node, b.value.node), path, level, room);
      case Quiet =>
    }
  }

  lemma {:induction false} RunItemsIsPrefix(env: Env, cfg: Config, bound: Value, items: seq<Item<Value>>,
                                            path: seq<Step>, level: int, room: int)
    requires Below(items, bound) && !TooDeep(cfg, level)
    requires room >= 1
    ensures RunItems(env, cfg, bound, items, path, level, room)
         == Take(Kept(cfg.maxDepth, ItemDiffs(env, true, bound, items, path, level)), room)
    decreases 1, bound, 0, |items|
  {
    hide Run, Diffs;
    if items != [] {
      var it := items[0];
      var one := OneItem(env, true, bound, items, path, level);
      var rest := ItemDiffs(env, true, bound, items[1..], path, level);
      KeptAppend(cfg.maxDepth, one, rest);
      TakeAppend(Kept(cfg.maxDepth, one), Kept(cfg.maxDepth, rest), room);
      if it.OnlyLeft? || it.OnlyRight? {
        KeptOne(cfg.maxDepth, one[0]);
      } else {
        RunIsPrefix(env, cfg, Some(it.x), Some(it.y), path + [it.step], level + 1, room);
      }
      var h := RunOne(env, cfg, bound, items, path, level, room);
      assert h == Take(Kept(cfg.maxDepth, one), room);
      if |h| < room {
        RunItemsIsPrefix(env, cfg, bound, items[1..], path, level, room - |h|);
      }
    }
  }

  ghost predicate NilMeansNone(env: Env, cfg: Config, a: Option<Value>, b: Option<Value>)
    requires WellTypedOpt(a) && WellTypedOpt(b)
  {
    Run(env, cfg, a, b, [], 0, cfg.maxDiff) == [] <==> Wanted(env, cfg, a, b, [], 0) == []
  }

  /**
    An empty result means "no differences" for every pair exactly when MaxDiff is at least 1: with
    less, the loops still try one child and stop, so that a later difference is missed.
   */
  lemma EmptyResultIsTrustedIff(env: Env, cfg: Config)
    ensures (forall a, b | WellTypedOpt(a) && WellTypedOpt(b) :: NilMeansNone(env, cfg, a, b)) <==> cfg.maxDiff >= 1
  {
    if cfg.maxDiff >= 1 {
      forall a, b | WellTypedOpt(a) && WellTypedOpt(b) ensures NilMeansNone(env, cfg, a, b) {
        RunIsPrefix(env, cfg, a, b, [], 0, cfg.maxDiff);
      }
    } else {
      NoRoomMissesDifferences(env, cfg);
    }
  }

  lemma NoRoomMissesDifferences(env: Env, cfg: Config)
    requires cfg.maxDiff < 1
    ensures exists a, b :: WellTypedOpt(a) && WellTypedOpt(b) && !NilMeansNone(env, cfg, a, b)
  {
    var boolean := GoType("bool", BoolKind, false, false, [], 0);
    var bools := GoType("[]bool", SliceKind, false, false, [], 0);
    var t := Value(Node(boolean, 0, Bool(true)));
    var xs, ys := [t], [t, t];
    var a, b := Value(Node(bools, 1, Slice(false, 1, xs))), Value(Node(bools, 2, Slice(false, 2, ys)));
    var items := Items(a.node, b.node);
    assert SliceItems(xs, ys, 2) == [];
    assert SliceItems(xs, ys, 1) == [SliceItem(xs, ys, 1)];
    assert items == [SliceItem(xs, ys, 0), SliceItem(xs, ys, 1)];
    ItemsBelow(a, b);
    SecondChildMissed(env, cfg, a, items);
    assert Diffs(env, true, Some(a), Some(b), [], 0) == ItemDiffs(env, true, a, items, [], 0);
    assert Run(env, cfg, Some(a), Some(b), [], 0, cfg.maxDiff) == RunItems(env, cfg, a, items, [], 0, cfg.maxDiff);
    assert !NilMeansNone(env, cfg, Some(a), Some(b));
  }

  lemma SecondChildMissed(env: Env, cfg: Config, bound: Value, items: seq<Item<Value>>)
    requires cfg.maxDiff < 1 && Below(items, bound)
    requires |items| == 2 && items[0].Both? && items[0].x == items[0].y && items[0].x.node.body.Bool?
    requires !items[0].x.node.t.isError && items[1].OnlyRight?
    ensures RunItems(env, cfg, bound, items, [], 0, cfg.maxDiff) == []
    ensures Kept(cfg.maxDepth, ItemDiffs(env, true, bound, items, [], 0)) != []
  {
    var it := items[0];
    assert WellTyped(it.x) && Head(env, true, it.x.node, it.y.node) == Quiet;
    assert OneItem(env, true, bound, items, [], 0) == [];
    assert RunOne(env, cfg, bound, items, [], 0, cfg.maxDiff) == [];
    var found := Found(0, Lone(items[1], []));
    assert ItemDiffs(env, true, bound, items[1..], [], 0) == [found];
    assert ItemDiffs(env, true, bound, items, [], 0) == [found];
    KeptOne(cfg.maxDepth, found);
  }

  // ----- Equal

  /** What Equal reports before it starts recursing: one side is a nil interface. */
  function TopHalf(a: Option<Value>, b: Option<Value>): seq<Diff>
    requires a.None? || b.None?
  {
    if a.Some? then [Diff([], Printed(a.value.node.id), NIL_POINTER)]
    else if b.Some? then [Diff([], NIL_POINTER, Printed(b.value.node.id))]
    else []
  }

  /** The differences a caller of Equal asks for. */
  ghost function Answer(env: Env, cfg: Config, a: Option<Value>, b: Option<Value>): seq<Diff>
    requires WellTypedOpt(a) && WellTypedOpt(b)
  {
    if a.None? || b.None? then TopHalf(a, b)
    else Take(Wanted(env, cfg, a, b, [], 0), cfg.maxDiff)
  }

  /** Equal. None is Go's nil result, "no differences". */
  method Equal(env: Env, cfg: Config, a: Option<Value>, b: Option<Value>) returns (r: Option<seq<Diff>>)
    requires WellTypedOpt(a) && WellTypedOpt(b)
    ensures r.Some? ==> r.value != []
    ensures cfg.maxDiff >= 1 ==> (if r.Some? then r.value else []) == Answer(env, cfg, a, b)
    ensures cfg.maxDiff < 1 && a.Some? && b.Some? ==>
              (if r.Some? then r.value else []) == Run(env, cfg, a, b, [], 0, cfg.maxDiff)
    ensures a.None? && b.None? ==> r.None?
    ensures a.Some? && b.None? ==> r == Some([Diff([], Printed(a.value.node.id), Text("<nil pointer>"))])
    ensures a.None? && b.Some? ==> r == Some([Diff([], Text("<nil pointer>"), Printed(b.value.node.id))])
  {
    var c := new Cmp(env, cfg);
    if a.None? && b.None? {
      return None;
    } else if a.None? && b.Some? {
      c.SaveDiff(NIL_POINTER, Printed(b.value.node.id));
    } else if a.Some? && b.None? {
      c.SaveDiff(Printed(a.value.node.id), NIL_POINTER);
    }
    if |c.diff| > 0 {
      assert c.diff == TopHalf(a, b);
      return Some(c.diff);
    }
    c.Equals(a, b, 0);
    if cfg.maxDiff >= 1 {
      RunIsPrefix(env, cfg, a, b, [], 0, cfg.maxDiff);
    }
    if |c.diff| > 0 {
      return Some(c.diff);
    }
    return None;
  }
}
