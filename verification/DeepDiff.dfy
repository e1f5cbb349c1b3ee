/**
  The cmp class of pkg/utils/reflectutils/deep.go over finite values: the full list of differences,
  the capped and depth-limited run, and the methods proved to make that run. DeepCap proves that the
  run is the beginning of the full list.
 */
module DeepDiff {
  import opened Common
  import opened DeepValues

  datatype Value = Value(node: Node<Value>)

  const LEAF := Value(Node(GoType("", OtherKind, false, false, [], 0), 0, Opaque))

  ghost predicate WellTyped(v: Value)
    decreases v
  {
    && NodeOK(v.node)
    && match v.node.body
       case Elem(x) => x.Some? ==> WellTyped(x.value)
       case Fields(xs) => forall i | 0 <= i < |xs| :: WellTyped(xs[i])
       case Entries(_, _, es) => forall i | 0 <= i < |es| :: WellTyped(es[i].value)
       case Elems(xs) => forall i | 0 <= i < |xs| :: WellTyped(xs[i])
       case Slice(_, _, xs) => forall i | 0 <= i < |xs| :: WellTyped(xs[i])
       case _ => true
  }

  ghost predicate WellTypedOpt(v: Option<Value>) {
    v.Some? ==> WellTyped(v.value)
  }

  /** The children compared below a pair are well typed and smaller than the left value. */
  ghost predicate Below(items: seq<Item<Value>>, bound: Value) {
    forall i | 0 <= i < |items| && items[i].Both? ::
      items[i].x < bound && WellTyped(items[i].x) && WellTyped(items[i].y)
  }

  /** The value one path step below `v`, if it is there. */
  function Child(v: Value, s: Step): Option<Value> {
    match (v.node.body, s)
    case (Fields(xs), FieldStep(i, _)) => if i < |xs| then Some(xs[i]) else None
    case (Entries(_, _, es), MapStep(k)) => Lookup(es, k)
    case (Elems(xs), ArrayStep(i)) => if i < |xs| then Some(xs[i]) else None
    case (Slice(_, _, xs), SliceStep(i)) => if i < |xs| then Some(xs[i]) else None
    case _ => None
  }

  lemma ChildSmaller(v: Value, s: Step)
    requires WellTyped(v) && Child(v, s).Some?
    ensures Child(v, s).value < v && WellTyped(Child(v, s).value)
  {
    if v.node.body.Entries? {
      var i := LookupIndex(v.node.body.entries, s.key);
    }
  }

  /** An item pairs what its step leads to in both values, or reports that one of them lacks it. */
  ghost predicate ItemOK(a: Value, b: Value, it: Item<Value>) {
    match it
    case Both(s, x, y) => Child(a, s) == Some(x) && Child(b, s) == Some(y)
    case OnlyLeft(s, l, _) => Child(a, s) == l && Child(b, s).None?
    case OnlyRight(s, r, _) => Child(a, s).None? && Child(b, s) == r
  }

  ghost predicate ItemsOK(a: Value, b: Value, items: seq<Item<Value>>) {
    forall i | 0 <= i < |items| :: ItemOK(a, b, items[i])
  }

  lemma OKBelow(a: Value, b: Value, items: seq<Item<Value>>)
    requires WellTyped(a) && WellTyped(b) && ItemsOK(a, b, items)
    ensures Below(items, a)
  {
    forall i | 0 <= i < |items| && items[i].Both?
      ensures items[i].x < a && WellTyped(items[i].x) && WellTyped(items[i].y)
    {
      assert ItemOK(a, b, items[i]);
      ChildSmaller(a, items[i].step);
      ChildSmaller(b, items[i].step);
    }
  }

  ghost predicate Alike(a: Value, b: Value) {
    WellTyped(a) && WellTyped(b) && a.node.t == b.node.t
  }

  lemma FieldsOK(a: Value, b: Value, i: nat)
    requires Alike(a, b) && a.node.body.Fields? && i <= |a.node.t.fields|
    ensures ItemsOK(a, b, FieldItems(a.node.t.fields, a.node.body.fields, b.node.body.fields, i))
    decreases |a.node.t.fields| - i
  {
    if i < |a.node.t.fields| {
      FieldsOK(a, b, i + 1);
    }
  }

  lemma KeysOK(a: Value, b: Value, i: nat)
    requires Alike(a, b) && a.node.body.Entries? && i <= |a.node.body.entries|
    ensures ItemsOK(a, b, KeyItems(a.node.body.entries, b.node.body.entries, i))
    decreases |a.node.body.entries| - i
  {
    var xs, ys := a.node.body.entries, b.node.body.entries;
    if i < |xs| {
      KeysOK(a, b, i + 1);
      if !xs[i].key.nan {
        LookupAt(xs, i);
      }
    }
  }

  lemma ExtrasOK(a: Value, b: Value, i: nat)
    requires Alike(a, b) && a.node.body.Entries? && i <= |b.node.body.entries|
    ensures ItemsOK(a, b, ExtraItems(a.node.body.entries, b.node.body.entries, i))
    decreases |b.node.body.entries| - i
  {
    if i < |b.node.body.entries| {
      ExtrasOK(a, b, i + 1);
    }
  }

  lemma ElemsOK(a: Value, b: Value, i: nat)
    requires Alike(a, b) && a.node.body.Elems? && i <= |a.node.body.elems|
    ensures ItemsOK(a, b, ElemItems(a.node.body.elems, b.node.body.elems, i))
    decreases |a.node.body.elems| - i
  {
    if i < |a.node.body.elems| {
      ElemsOK(a, b, i + 1);
    }
  }

  lemma SlicesOK(a: Value, b: Value, i: nat)
    requires Alike(a, b) && a.node.body.Slice? && i <= Max(|a.node.body.items|, |b.node.body.items|)
    ensures ItemsOK(a, b, SliceItems(a.node.body.items, b.node.body.items, i))
    decreases Max(|a.node.body.items|, |b.node.body.items|) - i
  {
    if i < Max(|a.node.body.items|, |b.node.body.items|) {
      SlicesOK(a, b, i + 1);
    }
  }

  lemma AllItemsOK(a: Value, b: Value)
    requires Alike(a, b)
    ensures ItemsOK(a, b, Items(a.node, b.node))
  {
    match a.node.body
    case Fields(_) => FieldsOK(a, b, 0);
    case Entries(_, _, _) =>
      KeysOK(a, b, 0);
      ExtrasOK(a, b, 0);
    case Elems(_) => ElemsOK(a, b, 0);
    case Slice(_, _, _) => SlicesOK(a, b, 0);
    case _ =>
  }

  lemma ItemsBelow(a: Value, b: Value)
    requires Alike(a, b)
    ensures Below(Items(a.node, b.node), a)
  {
    AllItemsOK(a, b);
    OKBelow(a, b, Items(a.node, b.node));
  }

  // ----- The full difference list

  /** A difference together with the recursion level it is recorded at. */
  datatype Found = Found(level: int, diff: Diff)

  function ShowOpt(v: Option<Value>): Shown {
    match v
    case None => INVALID
    case Some(x) => Printed(x.node.id)
  }

  /** The entry recorded for a child that only one side has. */
  function Lone(it: Item<Value>, path: seq<Step>): Diff
    requires !it.Both?
  {
    match it
    case OnlyLeft(s, l, note) => Diff(path + [s], ShowOpt(l), note)
    case OnlyRight(s, r, note) => Diff(path + [s], note, ShowOpt(r))
  }

  function HalfNil(a: Option<Value>, b: Option<Value>, path: seq<Step>): (ds: seq<Diff>)
    requires a.None? || b.None?
    ensures |ds| == if a.None? && b.None? then 0 else 1
  {
    if a.Some? then [Diff(path, TypeName(a.value.node.t), NIL_POINTER)]
    else if b.Some? then [Diff(path, NIL_POINTER, TypeName(b.value.node.t))]
    else []
  }

  /** Every difference between `a` and `b`, with no cap and no depth limit. */
  ghost function Diffs(env: Env, shortcut: bool, a: Option<Value>, b: Option<Value>,
                       path: seq<Step>, level: int): seq<Found>
    requires WellTypedOpt(a) && WellTypedOpt(b)
    decreases if a.Some? then 1 else 0, if a.Some? then a.value else LEAF, 1, 0
  {
    if a.None? && b.None? then []
    else if a.None? || b.None? then [Found(level, HalfNil(a, b, path)[0])]
    else
      match Head(env, shortcut, a.value.node, b.value.node)
      case Quiet => []
      case Report(l, r) => [Found(level, Diff(path, l, r))]
      case Through(x, y) => Diffs(env, shortcut, x, y, path, level + 1)
      case Scan =>
        ItemsBelow(a.value, b.value);
        ItemDiffs(env, shortcut, a.value, Items(a.value.node, b.value.node), path, level)
  }

  ghost function ItemDiffs(env: Env, shortcut: bool, bound: Value, items: seq<Item<Value>>,
                           path: seq<Step>, level: int): seq<Found>
    requires Below(items, bound)
    decreases 1, bound, 0, |items|
  {
    if items == [] then []
    else OneItem(env, shortcut, bound, items, path, level)
         + ItemDiffs(env, shortcut, bound, items[1..], path, level)
  }

  ghost function OneItem(env: Env, shortcut: bool, bound: Value, items: seq<Item<Value>>,
                         path: seq<Step>, level: int): seq<Found>
    requires Below(items, bound) && items != []
    decreases 1, bound, 0, 0
  {
    var it := items[0];
    if it.Both? then Diffs(env, shortcut, Some(it.x), Some(it.y), path + [it.step], level + 1)
    else [Found(level, Lone(it, path))]
  }

  // ----- The capped, depth-limited run

  datatype Config = Config(maxDiff: int, maxDepth: int)

  predicate TooDeep(cfg: Config, level: int) {
    cfg.maxDepth > 0 && level > cfg.maxDepth
  }

  /** What one call of equals appends when there is room for `room` more entries. */
  ghost function Run(env: Env, cfg: Config, a: Option<Value>, b: Option<Value>,
                     path: seq<Step>, level: int, room: int): seq<Diff>
    requires WellTypedOpt(a) && WellTypedOpt(b)
    decreases if a.Some? then 1 else 0, if a.Some? then a.value else LEAF, 1, 0
  {
    if TooDeep(cfg, level) then []
    else if a.None? || b.None? then HalfNil(a, b, path)
    else
      match Head(env, true, a.value.node, b.value.node)
      case Quiet => []
      case Report(l, r) => [Diff(path, l, r)]
      case Through(x, y) => Run(env, cfg, x, y, path, level + 1, room)
      case Scan =>
        ItemsBelow(a.value, b.value);
        RunItems(env, cfg, a.value, Items(a.value.node, b.value.node), path, level, room)
  }

  /** A loop over children: stop as soon as the cap is reached after a child. */
  ghost function RunItems(env: Env, cfg: Config, bound: Value, items: seq<Item<Value>>,
                          path: seq<Step>, level: int, room: int): seq<Diff>
    requires Below(items, bound)
    decreases 1, bound, 0, |items|
  {
    if items == [] then []
    else
      var h := RunOne(env, cfg, bound, items, path, level, room);
      if |h| >= room then h
      else h + RunItems(env, cfg, bound, items[1..], path, level, room - |h|)
  }

  ghost function RunOne(env: Env, cfg: Config, bound: Value, items: seq<Item<Value>>,
                        path: seq<Step>, level: int, room: int): seq<Diff>
    requires Below(items, bound) && items != []
    decreases 1, bound, 0, 0
  {
    var it := items[0];
    if it.Both? then Run(env, cfg, Some(it.x), Some(it.y), path + [it.step], level + 1, room)
    else [Lone(it, path)]
  }

  /** One turn of a loop: `before` grows by the entries of the first child, and the rest remains. */
  lemma Turn(env: Env, cfg: Config, bound: Value, items: seq<Item<Value>>, rest: seq<Item<Value>>,
             path: seq<Step>, level: int, before: seq<Diff>, after: seq<Diff>)
    requires Below(items, bound) && items != [] && rest == items[1..]
    requires after == before + RunOne(env, cfg, bound, items, path, level, cfg.maxDiff - |before|)
    ensures Below(rest, bound)
    ensures before + RunItems(env, cfg, bound, items, path, level, cfg.maxDiff - |before|)
         == if |after| >= cfg.maxDiff then after
            else after + RunItems(env, cfg, bound, rest, path, level, cfg.maxDiff - |after|)
  {
  }

  lemma NothingToRun(env: Env, cfg: Config, bound: Value, path: seq<Step>, level: int, room: int)
    ensures RunItems(env, cfg, bound, [], path, level, room) == []
  {
  }

  // ----- The class

  class Cmp {
    var diff: seq<Diff>
    var buff: seq<Step>
    const env: Env
    const cfg: Config

    constructor (env: Env, cfg: Config)
      ensures this.env == env && this.cfg == cfg && diff == [] && buff == []
    {
      this.env := env;
      this.cfg := cfg;
      diff := [];
      buff := [];
    }

    method Push(step: Step)
      modifies this`buff
      ensures buff == old(buff) + [step]
    {
      buff := buff + [step];
    }

    method Pop()
      modifies this`buff
      ensures buff == if old(buff) == [] then [] else old(buff)[..|old(buff)| - 1]
    {
      if |buff| > 0 {
        buff := buff[..|buff| - 1];
      }
    }

    method SaveDiff(l: Shown, r: Shown)
      modifies this`diff
      ensures diff == old(diff) + [Diff(buff, l, r)]
    {
      diff := diff + [Diff(buff, l, r)];
    }

    ghost function Room(): int
      reads this`diff
    {
      cfg.maxDiff - |diff|
    }

    /** Appends exactly what `Run` says and leaves the path stack as it found it. */
    method Equals(a: Option<Value>, b: Option<Value>, level: int)
      requires WellTypedOpt(a) && WellTypedOpt(b)
      modifies this
      ensures buff == old(buff)
      ensures diff == old(diff) + Run(env, cfg, a, b, old(buff), level, old(Room()))
      decreases if a.Some? then 1 else 0, if a.Some? then a.value else LEAF, 1
    {
      if cfg.maxDepth > 0 && level > cfg.maxDepth {
        return;
      }
      if a.None? || b.None? {
        if a.Some? {
          SaveDiff(TypeName(a.value.node.t), NIL_POINTER);
        } else if b.Some? {
          SaveDiff(NIL_POINTER, TypeName(b.value.node.t));
        }
        return;
      }
      var na, nb := a.value.node, b.value.node;
      if na.t != nb.t {
        SaveDiff(TypeName(na.t), TypeName(nb.t));
        return;
      }
      if na.t.isError && nb.t.isError {
        if !NilElem(na) && !NilElem(nb) {
          var aString, bString := env.errorText(na.id), env.errorText(nb.id);
          if aString != bString {
            SaveDiff(Text(aString), Text(bString));
            return;
          }
        }
      }
      Switch(a.value, b.value, level);
    }

    /** The dereference of pointers and interfaces, and the switch over the remaining kinds. */
    method Switch(a: Value, b: Value, level: int)
      requires Alike(a, b) && !ErrorsDiffer(env, a.node, b.node) && !TooDeep(cfg, level)
      modifies this
      ensures buff == old(buff)
      ensures diff == old(diff) + Run(env, cfg, Some(a), Some(b), old(buff), level, old(Room()))
      decreases 1, a, 0, 2
    {
      var na, nb := a.node, b.node;
      ItemsBelow(a, b);
      match na.body
      case Elem(x) =>
        Equals(x, nb.body.target, level + 1);
      case Fields(xs) =>
        if na.t.usesEqual {
          if !env.equal(na.id, nb.id) {
            SaveDiff(Printed(na.id), Printed(nb.id));
          }
          return;
        }
        FieldLoop(a, b, level);
      case Entries(_, _, _) =>
        if na.body.isNil || nb.body.isNil {
          if na.body.isNil && !nb.body.isNil {
            SaveDiff(NIL_MAP, Printed(nb.id));
          } else if !na.body.isNil && nb.body.isNil {
            SaveDiff(Printed(na.id), NIL_MAP);
          }
          return;
        }
        if na.body.addr == nb.body.addr {
          return;
        }
        var full := KeyLoop(a, b, level, ExtraItems(na.body.entries, nb.body.entries, 0));
        if !full {
          ExtraLoop(a, b, level);
        }
      case Elems(_) =>
        ArrayLoop(a, b, level);
      case Slice(_, _, _) =>
        if na.body.isNil || nb.body.isNil {
          if na.body.isNil && !nb.body.isNil {
            SaveDiff(NIL_SLICE, Printed(nb.id));
          } else if !na.body.isNil && nb.body.isNil {
            SaveDiff(Printed(na.id), NIL_SLICE);
          }
          return;
        }
        if na.body.addr == nb.body.addr && |na.body.items| == |nb.body.items| {
          return;
        }
        SliceLoop(a, b, level);
      case _ =>
        Primitive(na, nb);
    }

    /** The primitive kinds; a kind that is not handled records nothing. */
    method Primitive(na: Node<Value>, nb: Node<Value>)
      requires NodeOK(na) && NodeOK(nb) && na.t == nb.t && !ErrorsDiffer(env, na, nb)
      requires !na.body.Elem? && Head(env, true, na, nb) != Scan
      requires !na.body.Fields? && !na.body.Entries? && !na.body.Slice?
      modifies this`diff
      ensures Head(env, true, na, nb).Quiet? ==> diff == old(diff)
      ensures Head(env, true, na, nb).Report? ==>
                diff == old(diff) + [Diff(buff, Head(env, true, na, nb).left, Head(env, true, na, nb).right)]
    {
      match na.body
      case Float(x) =>
        if env.round(x) != env.round(nb.body.bits) { SaveDiff(Printed(na.id), Printed(nb.id)); }
      case Bool(x) =>
        if x != nb.body.b { SaveDiff(Printed(na.id), Printed(nb.id)); }
      case Int(x) =>
        if x != nb.body.i { SaveDiff(Printed(na.id), Printed(nb.id)); }
      case Uint(x) =>
        if x != nb.body.n { SaveDiff(Printed(na.id), Printed(nb.id)); }
      case Str(x) =>
        if x != nb.body.s { SaveDiff(Printed(na.id), Printed(nb.id)); }
      case Opaque =>
    }

    ghost predicate Scanned(a: Value, b: Value) {
      && Alike(a, b)
      && Below(Items(a.node, b.node), a)
    }

    ghost function Keys(a: Value, b: Value, i: nat): seq<Item<Value>>
      requires Scanned(a, b) && a.node.body.Entries? && i <= |a.node.body.entries|
    {
      KeyItems(a.node.body.entries, b.node.body.entries, i)
    }

    method FieldLoop(a: Value, b: Value, level: int)
      requires Scanned(a, b) && a.node.body.Fields?
      modifies this
      ensures buff == old(buff)
      ensures diff == old(diff) + RunItems(env, cfg, a, Items(a.node, b.node), old(buff), level, old(Room()))
      decreases 1, a, 0, 1
    {
      hide Run, RunItems;
      var infos, xs, ys := a.node.t.fields, a.node.body.fields, b.node.body.fields;
      ghost var path := buff;
      ghost var goal := diff + RunItems(env, cfg, a, Items(a.node, b.node), path, level, Room());
      for i := 0 to |infos|
        invariant buff == path
        invariant Below(FieldItems(infos, xs, ys, i), a)
        invariant diff + RunItems(env, cfg, a, FieldItems(infos, xs, ys, i), path, level, cfg.maxDiff - |diff|) == goal
      {
        if !infos[i].visible {
          continue;
        }
        if infos[i].ignored {
          continue;
        }
        assert FieldItems(infos, xs, ys, i)[1..] == FieldItems(infos, xs, ys, i + 1);
        ghost var before := diff;
        Push(FieldStep(i, infos[i].name));
        Equals(Some(xs[i]), Some(ys[i]), level + 1);
        Pop();
        assert buff == path;
        Turn(env, cfg, a, FieldItems(infos, xs, ys, i), FieldItems(infos, xs, ys, i + 1),
             path, level, before, diff);
        if |diff| >= cfg.maxDiff {
          break;
        }
      }
      NothingToRun(env, cfg, a, path, level, cfg.maxDiff - |diff|);
    }

    /** The keys of `a`; `full` says that the cap was reached, so that the other loop is not entered. */
    method KeyLoop(a: Value, b: Value, level: int, ghost extras: seq<Item<Value>>) returns (full: bool)
      requires Scanned(a, b) && a.node.body.Entries?
      requires Below(Keys(a, b, 0) + extras, a)
      modifies this
      ensures buff == old(buff)
      ensures var all := RunItems(env, cfg, a, Keys(a, b, 0) + extras, old(buff), level, old(Room()));
              if full then diff == old(diff) + all
              else Below(extras, a)
                   && diff + RunItems(env, cfg, a, extras, old(buff), level, Room()) == old(diff) + all
      decreases 1, a, 0, 1
    {
      hide Run, RunItems, RunOne, Lookup, Items;
      var xs, ys := a.node.body.entries, b.node.body.entries;
      ghost var path := buff;
      ghost var goal := diff + RunItems(env, cfg, a, Keys(a, b, 0) + extras, path, level, Room());
      for i := 0 to |xs|
        invariant buff == path
        invariant Below(Keys(a, b, i) + extras, a)
        invariant diff + RunItems(env, cfg, a, Keys(a, b, i) + extras, path, level, cfg.maxDiff - |diff|) == goal
      {
        assert (Keys(a, b, i) + extras)[1..] == Keys(a, b, i + 1) + extras;
        ghost var before := diff;
        Push(MapStep(xs[i].key));
        KeySlot(a, b, i, level, path, extras);
        Pop();
        assert buff == path;
        Turn(env, cfg, a, Keys(a, b, i) + extras, Keys(a, b, i + 1) + extras, path, level, before, diff);
        if |diff| >= cfg.maxDiff {
          return true;
        }
      }
      assert Keys(a, b, |xs|) + extras == extras;
      return false;
    }

    /** One key of `a`: compare with the value in `b`, or record that `b` lacks the key. */
    method KeySlot(a: Value, b: Value, i: nat, level: int, ghost path: seq<Step>, ghost extras: seq<Item<Value>>)
      requires Scanned(a, b) && a.node.body.Entries? && i < |a.node.body.entries|
      requires Below(Keys(a, b, i) + extras, a)
      requires buff == path + [MapStep(a.node.body.entries[i].key)]
      modifies this
      ensures buff == old(buff)
      ensures diff == old(diff) + RunOne(env, cfg, a, Keys(a, b, i) + extras, path, level, old(Room()))
      decreases 1, a, 0, 0
    {
      var xs, ys := a.node.body.entries, b.node.body.entries;
      var key := xs[i].key;
      assert (Keys(a, b, i) + extras)[0] == KeyItem(xs, ys, key);
      var aVal, bVal := Lookup(xs, key), Lookup(ys, key);
      if bVal.Some? {
        LookupAt(xs, i);
        Equals(aVal, bVal, level + 1);
      } else {
        SaveDiff(ShowOpt(aVal), NO_KEY);
      }
    }

    /** The keys of `b` that `a` does not have. */
    method ExtraLoop(a: Value, b: Value, level: int)
      requires Scanned(a, b) && a.node.body.Entries?
      modifies this
      ensures buff == old(buff)
      ensures var extras := ExtraItems(a.node.body.entries, b.node.body.entries, 0);
              Below(extras, a) && diff == old(diff) + RunItems(env, cfg, a, extras, old(buff), level, old(Room()))
    {
      hide Run, RunItems;
      var xs, ys := a.node.body.entries, b.node.body.entries;
      ghost var path := buff;
      ExtrasOK(a, b, 0);
      OKBelow(a, b, ExtraItems(xs, ys, 0));
      ghost var goal := diff + RunItems(env, cfg, a, ExtraItems(xs, ys, 0), path, level, Room());
      for i := 0 to |ys|
        invariant buff == path
        invariant Below(ExtraItems(xs, ys, i), a)
        invariant diff + RunItems(env, cfg, a, ExtraItems(xs, ys, i), path, level, cfg.maxDiff - |diff|) == goal
      {
        var key := ys[i].key;
        if Lookup(xs, key).Some? {
          continue;
        }
        assert ExtraItems(xs, ys, i)[1..] == ExtraItems(xs, ys, i + 1);
        ghost var before := diff;
        Push(MapStep(key));
        SaveDiff(NO_KEY, ShowOpt(Lookup(ys, key)));
        Pop();
        assert buff == path;
        Turn(env, cfg, a, ExtraItems(xs, ys, i), ExtraItems(xs, ys, i + 1), path, level, before, diff);
        if |diff| >= cfg.maxDiff {
          return;
        }
      }
      NothingToRun(env, cfg, a, path, level, cfg.maxDiff - |diff|);
    }

    method ArrayLoop(a: Value, b: Value, level: int)
      requires Scanned(a, b) && a.node.body.Elems?
      modifies this
      ensures buff == old(buff)
      ensures diff == old(diff) + RunItems(env, cfg, a, Items(a.node, b.node), old(buff), level, old(Room()))
      decreases 1, a, 0, 1
    {
      hide Run, RunItems;
      var xs, ys := a.node.body.elems, b.node.body.elems;
      ghost var path := buff;
      ghost var goal := diff + RunItems(env, cfg, a, Items(a.node, b.node), path, level, Room());
      for i := 0 to |xs|
        invariant buff == path
        invariant Below(ElemItems(xs, ys, i), a)
        invariant diff + RunItems(env, cfg, a, ElemItems(xs, ys, i), path, level, cfg.maxDiff - |diff|) == goal
      {
        assert ElemItems(xs, ys, i)[1..] == ElemItems(xs, ys, i + 1);
        ghost var before := diff;
        Push(ArrayStep(i));
        Equals(Some(xs[i]), Some(ys[i]), level + 1);
        Pop();
        assert buff == path;
        Turn(env, cfg, a, ElemItems(xs, ys, i), ElemItems(xs, ys, i + 1),
             path, level, before, diff);
        if |diff| >= cfg.maxDiff {
          break;
        }
      }
      NothingToRun(env, cfg, a, path, level, cfg.maxDiff - |diff|);
    }

    method SliceLoop(a: Value, b: Value, level: int)
      requires Scanned(a, b) && a.node.body.Slice?
      modifies this
      ensures buff == old(buff)
      ensures diff == old(diff) + RunItems(env, cfg, a, Items(a.node, b.node), old(buff), level, old(Room()))
      decreases 1, a, 0, 1
    {
      hide Run, RunItems, RunOne;
      var xs, ys := a.node.body.items, b.node.body.items;
      ghost var path := buff;
      ghost var goal := diff + RunItems(env, cfg, a, Items(a.node, b.node), path, level, Room());
      var n := |xs|;
      if |ys| > |xs| {
        n := |ys|;
      }
      for i := 0 to n
        invariant buff == path
        invariant Below(SliceItems(xs, ys, i), a)
        invariant diff + RunItems(env, cfg, a, SliceItems(xs, ys, i), path, level, cfg.maxDiff - |diff|) == goal
      {
        assert SliceItems(xs, ys, i)[1..] == SliceItems(xs, ys, i + 1);
        ghost var before := diff;
        Push(SliceStep(i));
        Slot(a, xs, ys, i, level, path);
        Pop();
        assert buff == path;
        Turn(env, cfg, a, SliceItems(xs, ys, i), SliceItems(xs, ys, i + 1), path, level, before, diff);
        if |diff| >= cfg.maxDiff {
          break;
        }
      }
      NothingToRun(env, cfg, a, path, level, cfg.maxDiff - |diff|);
    }

    /** One index of two slices: compare, or record that one of them is too short. */
    method Slot(ghost a: Value, xs: seq<Value>, ys: seq<Value>, i: nat, level: int, ghost path: seq<Step>)
      requires i < Max(|xs|, |ys|) && Below(SliceItems(xs, ys, i), a)
      requires buff == path + [SliceStep(i)]
      modifies this
      ensures buff == old(buff)
      ensures diff == old(diff) + RunOne(env, cfg, a, SliceItems(xs, ys, i), path, level, old(Room()))
      decreases 1, a, 0, 0
    {
      assert SliceItems(xs, ys, i)[0] == SliceItem(xs, ys, i);
      if i < |xs| && i < |ys| {
        Equals(Some(xs[i]), Some(ys[i]), level + 1);
      } else if i < |xs| {
        SaveDiff(Printed(xs[i].node.id), NO_VALUE);
      } else {
        SaveDiff(NO_VALUE, Printed(ys[i].node.id));
      }
    }
  }
}
