/**
  What "no differences" means. `Same` states the comparison rules without paths, levels, caps or
  pointer shortcuts; the full difference list is empty exactly when it holds, and it is an
  equivalence that does not depend on the order in which map keys are visited.
 */
module DeepEquality {
  import opened Common
  import opened DeepValues
  import opened DeepDiff

  ghost predicate Same(env: Env, a: Option<Value>, b: Option<Value>)
    requires WellTypedOpt(a) && WellTypedOpt(b)
    decreases if a.Some? then 1 else 0, if a.Some? then a.value else LEAF, 1
  {
    if a.None? || b.None? then a.None? && b.None?
    else
      var m, n := a.value.node, b.value.node;
      && m.t == n.t
      && (m.t.isError && m.body != Elem(None) && n.body != Elem(None) ==> env.errorText(m.id) == env.errorText(n.id))
      && match m.body
         case Elem(x) => Same(env, x, n.body.target)
         case Fields(xs) =>
           if m.t.usesEqual then env.equal(m.id, n.id)
           else forall i | 0 <= i < |xs| && m.t.fields[i].visible && !m.t.fields[i].ignored ::
                  Same(env, Some(xs[i]), Some(n.body.fields[i]))
         case Entries(isNil, _, xs) =>
           && isNil == n.body.isNil
           && SameEntries(env, a.value, xs, n.body.entries)
         case Elems(xs) => forall i | 0 <= i < |xs| :: Same(env, Some(xs[i]), Some(n.body.elems[i]))
         case Slice(isNil, _, xs) =>
           && isNil == n.body.isNil
           && |xs| == |n.body.items|
           && forall i | 0 <= i < |xs| :: Same(env, Some(xs[i]), Some(n.body.items[i]))
         case Float(x) => env.round(x) == env.round(n.body.bits)
         case Bool(x) => x == n.body.b
         case Int(x) => x == n.body.i
         case Uint(x) => x == n.body.n
         case Str(x) => x == n.body.s
         case Opaque => true
  }

  ghost predicate EntriesBelow(xs: seq<Entry<Value>>, bound: Value) {
    forall i | 0 <= i < |xs| :: xs[i].value < bound && WellTyped(xs[i].value)
  }

  ghost predicate EntriesTyped(ys: seq<Entry<Value>>) {
    forall i | 0 <= i < |ys| :: WellTyped(ys[i].value)
  }

  /** Every key of `xs` finds a same value in `ys`, and every key of `ys` is one of `xs`. */
  ghost predicate SameEntries(env: Env, bound: Value, xs: seq<Entry<Value>>, ys: seq<Entry<Value>>)
    requires EntriesBelow(xs, bound) && EntriesTyped(ys)
    decreases 1, bound, 0
  {
    && (forall i, j | 0 <= i < |xs| && 0 <= j < |ys| && xs[i].key == ys[j].key ::
          Same(env, Some(xs[i].value), Some(ys[j].value)))
    && (forall i | 0 <= i < |xs| :: Lookup(ys, xs[i].key).Some?)
    && (forall j | 0 <= j < |ys| :: Lookup(xs, ys[j].key).Some?)
  }

  // ----- No differences means the same

  ghost predicate AllSame(env: Env, bound: Value, items: seq<Item<Value>>)
    requires Below(items, bound)
  {
    items == [] || (items[0].Both? && Same(env, Some(items[0].x), Some(items[0].y)) && AllSame(env, bound, items[1..]))
  }

  lemma FieldsAllSame(env: Env, a: Value, b: Value, i: nat)
    requires Alike(a, b) && a.node.body.Fields?
    requires i <= |a.node.t.fields|
    ensures var xs, ys := a.node.body.fields, b.node.body.fields;
            var items := FieldItems(a.node.t.fields, xs, ys, i);
            Below(items, a) &&
            (AllSame(env, a, items) <==>
             forall j | i <= j < |xs| && Compared(a.node.t.fields[j]) :: Same(env, Some(xs[j]), Some(ys[j])))
    decreases |a.node.t.fields| - i
  {
    hide Same;
    FieldsOK(a, b, i);
    OKBelow(a, b, FieldItems(a.node.t.fields, a.node.body.fields, b.node.body.fields, i));
    var infos, xs, ys := a.node.t.fields, a.node.body.fields, b.node.body.fields;
    if i < |infos| {
      FieldsAllSame(env, a, b, i + 1);
      if Compared(infos[i]) {
        SplitAllSame(env, a, Both(FieldStep(i, infos[i].name), xs[i], ys[i]), FieldItems(infos, xs, ys, i + 1));
      }
    }
  }

  lemma SplitAllSame(env: Env, bound: Value, it: Item<Value>, rest: seq<Item<Value>>)
    requires Below([it] + rest, bound)
    ensures Below(rest, bound) && (it.Both? ==> WellTyped(it.x) && WellTyped(it.y))
    ensures AllSame(env, bound, [it] + rest)
       <==> it.Both? && Same(env, Some(it.x), Some(it.y)) && AllSame(env, bound, rest)
  {
    hide Same;
    var all := [it] + rest;
    assert all[0] == it && all[1..] == rest;
  }

  lemma ElemsAllSame(env: Env, a: Value, b: Value, i: nat)
    requires Alike(a, b) && a.node.body.Elems?
    requires i <= |a.node.body.elems|
    ensures var xs, ys := a.node.body.elems, b.node.body.elems;
            var items := ElemItems(xs, ys, i);
            Below(items, a) &&
            (AllSame(env, a, items) <==> forall j | i <= j < |xs| :: Same(env, Some(xs[j]), Some(ys[j])))
    decreases |a.node.body.elems| - i
  {
    hide Same;
    ElemsOK(a, b, i);
    OKBelow(a, b, ElemItems(a.node.body.elems, b.node.body.elems, i));
    var xs, ys := a.node.body.elems, b.node.body.elems;
    if i < |xs| {
      ElemsAllSame(env, a, b, i + 1);
      SplitAllSame(env, a, Both(ArrayStep(i), xs[i], ys[i]), ElemItems(xs, ys, i + 1));
    }
  }

  lemma SlicesAllSame(env: Env, a: Value, b: Value, i: nat)
    requires Alike(a, b) && a.node.body.Slice?
    requires i <= Max(|a.node.body.items|, |b.node.body.items|)
    ensures var xs, ys := a.node.body.items, b.node.body.items;
            var items := SliceItems(xs, ys, i);
            Below(items, a) &&
            (AllSame(env, a, items) <==>
             (i == Max(|xs|, |ys|) || |xs| == |ys|) &&
             forall j | i <= j < |xs| && j < |ys| :: Same(env, Some(xs[j]), Some(ys[j])))
    decreases Max(|a.node.body.items|, |b.node.body.items|) - i
  {
    hide Same;
    SlicesOK(a, b, i);
    OKBelow(a, b, SliceItems(a.node.body.items, b.node.body.items, i));
    var xs, ys := a.node.body.items, b.node.body.items;
    if i < Max(|xs|, |ys|) {
      SlicesAllSame(env, a, b, i + 1);
      SplitAllSame(env, a, SliceItem(xs, ys, i), SliceItems(xs, ys, i + 1));
    }
  }

  lemma KeysAllSame(env: Env, a: Value, b: Value, i: nat)
    requires Alike(a, b) && a.node.body.Entries?
    requires i <= |a.node.body.entries|
    ensures var xs, ys := a.node.body.entries, b.node.body.entries;
            var items := KeyItems(xs, ys, i);
            Below(items, a) &&
            (AllSame(env, a, items) <==>
             (forall j | i <= j < |xs| :: Lookup(ys, xs[j].key).Some?) &&
             (forall j, k | i <= j < |xs| && 0 <= k < |ys| && xs[j].key == ys[k].key ::
                Same(env, Some(xs[j].value), Some(ys[k].value))))
    decreases |a.node.body.entries| - i
  {
    hide Same;
    KeysOK(a, b, i);
    OKBelow(a, b, KeyItems(a.node.body.entries, b.node.body.entries, i));
    var xs, ys := a.node.body.entries, b.node.body.entries;
    if i < |xs| {
      KeysAllSame(env, a, b, i + 1);
      SplitAllSame(env, a, KeyItem(xs, ys, xs[i].key), KeyItems(xs, ys, i + 1));
      var k := LookupIndex(ys, xs[i].key);
      if Lookup(ys, xs[i].key).Some? {
        LookupAt(xs, i);
        assert KeyItem(xs, ys, xs[i].key) == Both(MapStep(xs[i].key), xs[i].value, ys[k].value);
      }
    }
  }

  lemma ExtrasAllSame(env: Env, a: Value, b: Value, i: nat)
    requires Alike(a, b) && a.node.body.Entries? && i <= |b.node.body.entries|
    ensures var xs, ys := a.node.body.entries, b.node.body.entries;
            var items := ExtraItems(xs, ys, i);
            Below(items, a) &&
            (AllSame(env, a, items) <==> forall j | i <= j < |ys| :: Lookup(xs, ys[j].key).Some?)
    decreases |b.node.body.entries| - i
  {
    hide Same;
    var xs, ys := a.node.body.entries, b.node.body.entries;
    ExtrasOK(a, b, i);
    OKBelow(a, b, ExtraItems(xs, ys, i));
    if i < |ys| {
      ExtrasAllSame(env, a, b, i + 1);
      if Lookup(xs, ys[i].key).None? {
        assert !ExtraItems(xs, ys, i)[0].Both?;
      }
    }
  }

  lemma {:induction false} AppendAllSame(env: Env, bound: Value, s: seq<Item<Value>>, t: seq<Item<Value>>)
    requires Below(s, bound) && Below(t, bound)
    ensures Below(s + t, bound)
    ensures AllSame(env, bound, s + t) <==> AllSame(env, bound, s) && AllSame(env, bound, t)
  {
    hide Same;
    if s == [] {
      assert s + t == t;
    } else {
      AppendAllSame(env, bound, s[1..], t);
      assert (s + t)[0] == s[0] && (s + t)[1..] == s[1..] + t;
    }
  }

  /** For a pair whose contents are scanned, being the same is being the same child by child. */
  lemma SameIsAllSame(env: Env, a: Value, b: Value)
    requires WellTyped(a) && WellTyped(b) && Head(env, false, a.node, b.node).Scan?
    ensures Below(Items(a.node, b.node), a)
    ensures Same(env, Some(a), Some(b)) <==> AllSame(env, a, Items(a.node, b.node))
  {
    hide AllSame, FieldItems, KeyItems, ExtraItems, ElemItems, SliceItems, Lookup;
    match a.node.body
    case Fields(_) => FieldsAllSame(env, a, b, 0);
    case Entries(_, _, xs) =>
      var ys := b.node.body.entries;
      KeysAllSame(env, a, b, 0);
      ExtrasAllSame(env, a, b, 0);
      AppendAllSame(env, a, KeyItems(xs, ys, 0), ExtraItems(xs, ys, 0));
    case Elems(_) => ElemsAllSame(env, a, b, 0);
    case Slice(_, _, _) => SlicesAllSame(env, a, b, 0);
    case _ =>
  }

  /** Comparing contents: no differences exactly when the values are the same. */
  lemma {:induction false} NoDiffsIffSame(env: Env, a: Option<Value>, b: Option<Value>, path: seq<Step>, level: int)
    requires WellTypedOpt(a) && WellTypedOpt(b)
    ensures Diffs(env, false, a, b, path, level) == [] <==> Same(env, a, b)
    decreases if a.Some? then 1 else 0, if a.Some? then a.value else LEAF, 1, 0
  {
    if a.Some? && b.Some? {
      match Head(env, false, a.value.node, b.value.node)
      case Through(x, y) => NoDiffsIffSame(env, x, y, path, level + 1);
      case Scan =>
        SameIsAllSame(env, a.value, b.value);
        NoItemDiffsIffSame(env, a.value, Items(a.value.node, b.value.node), path, level);
      case _ =>
    }
  }

  lemma {:induction false} NoItemDiffsIffSame(env: Env, bound: Value, items: seq<Item<Value>>, path: seq<Step>,
                                              level: int)
    requires Below(items, bound)
    ensures ItemDiffs(env, false, bound, items, path, level) == [] <==> AllSame(env, bound, items)
    decreases 1, bound, 0, |items|
  {
    if items != [] {
      var it := items[0];
      NoItemDiffsIffSame(env, bound, items[1..], path, level);
      if it.Both? {
        NoDiffsIffSame(env, Some(it.x), Some(it.y), path + [it.step], level + 1);
      }
    }
  }

  // ----- An equivalence

  ghost predicate EqualReflexive(env: Env) {
    forall x: nat :: env.equal(x, x)
  }

  ghost predicate EqualIsEquivalence(env: Env) {
    && EqualReflexive(env)
    && (forall x: nat, y: nat :: env.equal(x, y) ==> env.equal(y, x))
    && (forall x: nat, y: nat, z: nat :: env.equal(x, y) && env.equal(y, z) ==> env.equal(x, z))
  }

  /** No map that the comparer looks into has a NaN key. */
  ghost predicate NoNaN(v: Value)
    requires WellTyped(v)
    decreases v
  {
    match v.node.body
    case Elem(x) => x.Some? ==> NoNaN(x.value)
    case Fields(xs) => v.node.t.usesEqual || forall i | 0 <= i < |xs| && Compared(v.node.t.fields[i]) :: NoNaN(xs[i])
    case Entries(_, _, es) => forall i | 0 <= i < |es| :: !es[i].key.nan && NoNaN(es[i].value)
    case Elems(xs) => forall i | 0 <= i < |xs| :: NoNaN(xs[i])
    case Slice(_, _, xs) => forall i | 0 <= i < |xs| :: NoNaN(xs[i])
    case _ => true
  }

  ghost predicate NoNaNOpt(v: Option<Value>)
    requires WellTypedOpt(v)
  {
    v.Some? ==> NoNaN(v.value)
  }

  /**
    The same value up to the order in which its maps list their keys; `moved` allows maps and slices
    to be at other addresses, as in another run.
   */
  ghost predicate Reordered(a: Value, b: Value, moved: bool)
    requires WellTyped(a) && WellTyped(b)
    decreases a
  {
    var m, n := a.node, b.node;
    && m.t == n.t
    && m.id == n.id
    && match m.body
       case Elem(x) => x.Some? == n.body.target.Some? && (x.Some? ==> Reordered(x.value, n.body.target.value, moved))
       case Fields(xs) => forall i | 0 <= i < |xs| :: Reordered(xs[i], n.body.fields[i], moved)
       case Entries(isNil, addr, xs) =>
         && isNil == n.body.isNil && (moved || addr == n.body.addr)
         && (forall i | 0 <= i < |xs| :: KeyOf(n.body.entries, xs[i].key))
         && (forall j | 0 <= j < |n.body.entries| :: KeyOf(xs, n.body.entries[j].key))
         && (forall i, j | 0 <= i < |xs| && 0 <= j < |n.body.entries| && xs[i].key == n.body.entries[j].key ::
               Reordered(xs[i].value, n.body.entries[j].value, moved))
       case Elems(xs) => forall i | 0 <= i < |xs| :: Reordered(xs[i], n.body.elems[i], moved)
       case Slice(isNil, addr, xs) =>
         && isNil == n.body.isNil && (moved || addr == n.body.addr)
         && |xs| == |n.body.items|
         && forall i | 0 <= i < |xs| :: Reordered(xs[i], n.body.items[i], moved)
       case _ => n.body == m.body
  }

  ghost predicate KeyOf(es: seq<Entry<Value>>, k: Key) {
    exists i :: 0 <= i < |es| && es[i].key == k
  }

  lemma KeyOfFound(es: seq<Entry<Value>>, k: Key)
    requires KeyOf(es, k) && !k.nan
    ensures Lookup(es, k).Some?
  {
    var i := LookupIndex(es, k);
  }

  /** Listing map keys in another order changes nothing; the identity listing gives reflexivity. */
  lemma {:induction false} ReorderedSame(env: Env, a: Value, b: Value, moved: bool)
    requires WellTyped(a) && WellTyped(b) && Reordered(a, b, moved)
    requires EqualReflexive(env) && NoNaN(a)
    ensures Same(env, Some(a), Some(b))
    decreases a
  {
    var m, n := a.node, b.node;
    match m.body
    case Elem(x) =>
      if x.Some? {
        ReorderedSame(env, x.value, n.body.target.value, moved);
      }
    case Fields(xs) =>
      if !m.t.usesEqual {
        forall i | 0 <= i < |xs| && Compared(m.t.fields[i]) ensures Same(env, Some(xs[i]), Some(n.body.fields[i])) {
          ReorderedSame(env, xs[i], n.body.fields[i], moved);
        }
      }
    case Entries(_, _, xs) =>
      EntriesReordered(env, a, b, moved);
    case Elems(xs) =>
      forall i | 0 <= i < |xs| ensures Same(env, Some(xs[i]), Some(n.body.elems[i])) {
        ReorderedSame(env, xs[i], n.body.elems[i], moved);
      }
    case Slice(_, _, xs) =>
      forall i | 0 <= i < |xs| ensures Same(env, Some(xs[i]), Some(n.body.items[i])) {
        ReorderedSame(env, xs[i], n.body.items[i], moved);
      }
    case _ =>
  }

  lemma {:induction false} EntriesReordered(env: Env, a: Value, b: Value, moved: bool)
    requires WellTyped(a) && WellTyped(b) && Reordered(a, b, moved) && a.node.body.Entries?
    requires EqualReflexive(env) && NoNaN(a)
    ensures SameEntries(env, a, a.node.body.entries, b.node.body.entries)
    decreases a, 0
  {
    hide Same;
    var xs, ys := a.node.body.entries, b.node.body.entries;
    forall i, j | 0 <= i < |xs| && 0 <= j < |ys| && xs[i].key == ys[j].key
      ensures Same(env, Some(xs[i].value), Some(ys[j].value))
    {
      ReorderedSame(env, xs[i].value, ys[j].value, moved);
    }
    forall i | 0 <= i < |xs| ensures Lookup(ys, xs[i].key).Some? {
      KeyOfFound(ys, xs[i].key);
    }
    forall j | 0 <= j < |ys| ensures Lookup(xs, ys[j].key).Some? {
      KeyOfFound(xs, ys[j].key);
    }
  }

  lemma {:induction false} ReorderedSelf(a: Value)
    requires WellTyped(a)
    ensures Reordered(a, a, false)
    decreases a
  {
    match a.node.body
    case Elem(x) =>
      if x.Some? {
        ReorderedSelf(x.value);
      }
    case Fields(xs) =>
      forall i | 0 <= i < |xs| ensures Reordered(xs[i], xs[i], false) { ReorderedSelf(xs[i]); }
    case Entries(_, _, xs) =>
      forall i | 0 <= i < |xs| ensures KeyOf(xs, xs[i].key) && Reordered(xs[i].value, xs[i].value, false) {
        ReorderedSelf(xs[i].value);
      }
    case Elems(xs) =>
      forall i | 0 <= i < |xs| ensures Reordered(xs[i], xs[i], false) { ReorderedSelf(xs[i]); }
    case Slice(_, _, xs) =>
      forall i | 0 <= i < |xs| ensures Reordered(xs[i], xs[i], false) { ReorderedSelf(xs[i]); }
    case _ =>
  }

  /** A NaN key that is looked at is never the same as anything. */
  lemma {:induction false} SameNoNaN(env: Env, a: Value, b: Value)
    requires WellTyped(a) && WellTyped(b) && Same(env, Some(a), Some(b))
    ensures NoNaN(a)
    decreases a
  {
    var n := b.node;
    match a.node.body
    case Elem(x) =>
      if x.Some? {
        SameNoNaN(env, x.value, n.body.target.value);
      }
    case Fields(xs) =>
      if !a.node.t.usesEqual {
        forall i | 0 <= i < |xs| && Compared(a.node.t.fields[i]) ensures NoNaN(xs[i]) {
          SameNoNaN(env, xs[i], n.body.fields[i]);
        }
      }
    case Entries(_, _, xs) =>
      forall i | 0 <= i < |xs| ensures !xs[i].key.nan && NoNaN(xs[i].value) {
        assert Lookup(n.body.entries, xs[i].key).Some?;
        var j := LookupIndex(n.body.entries, xs[i].key);
        SameNoNaN(env, xs[i].value, n.body.entries[j].value);
      }
    case Elems(xs) =>
      forall i | 0 <= i < |xs| ensures NoNaN(xs[i]) { SameNoNaN(env, xs[i], n.body.elems[i]); }
    case Slice(_, _, xs) =>
      forall i | 0 <= i < |xs| ensures NoNaN(xs[i]) { SameNoNaN(env, xs[i], n.body.items[i]); }
    case _ =>
  }

  /** A value is the same as itself exactly when no map looked into has a NaN key. */
  lemma SameReflexiveIff(env: Env, a: Value)
    requires WellTyped(a) && EqualReflexive(env)
    ensures Same(env, Some(a), Some(a)) <==> NoNaN(a)
  {
    if Same(env, Some(a), Some(a)) {
      SameNoNaN(env, a, a);
    } else if NoNaN(a) {
      ReorderedSelf(a);
      ReorderedSame(env, a, a, false);
    }
  }

  lemma {:induction false} ReorderedBack(a: Value, b: Value, moved: bool)
    requires WellTyped(a) && WellTyped(b) && Reordered(a, b, moved)
    ensures Reordered(b, a, moved)
    decreases a
  {
    var n := b.node;
    match a.node.body
    case Elem(x) =>
      if x.Some? {
        ReorderedBack(x.value, n.body.target.value, moved);
      }
    case Fields(xs) =>
      forall i | 0 <= i < |xs| ensures Reordered(n.body.fields[i], xs[i], moved) {
        ReorderedBack(xs[i], n.body.fields[i], moved);
      }
    case Entries(_, _, xs) =>
      var ys := n.body.entries;
      forall i, j | 0 <= i < |ys| && 0 <= j < |xs| && ys[i].key == xs[j].key
        ensures Reordered(ys[i].value, xs[j].value, moved)
      {
        ReorderedBack(xs[j].value, ys[i].value, moved);
      }
    case Elems(xs) =>
      forall i | 0 <= i < |xs| ensures Reordered(n.body.elems[i], xs[i], moved) {
        ReorderedBack(xs[i], n.body.elems[i], moved);
      }
    case Slice(_, _, xs) =>
      forall i | 0 <= i < |xs| ensures Reordered(n.body.items[i], xs[i], moved) {
        ReorderedBack(xs[i], n.body.items[i], moved);
      }
    case _ =>
  }

  lemma {:induction false} ReorderedNoNaN(a: Value, b: Value, moved: bool)
    requires WellTyped(a) && WellTyped(b) && Reordered(a, b, moved)
    ensures NoNaN(a) <==> NoNaN(b)
    decreases a
  {
    var n := b.node;
    match a.node.body
    case Elem(x) =>
      if x.Some? {
        ReorderedNoNaN(x.value, n.body.target.value, moved);
      }
    case Fields(xs) =>
      forall i | 0 <= i < |xs| ensures NoNaN(xs[i]) <==> NoNaN(n.body.fields[i]) {
        ReorderedNoNaN(xs[i], n.body.fields[i], moved);
      }
    case Entries(_, _, xs) =>
      EntriesNoNaN(a, b, moved);
    case Elems(xs) =>
      forall i | 0 <= i < |xs| ensures NoNaN(xs[i]) <==> NoNaN(n.body.elems[i]) {
        ReorderedNoNaN(xs[i], n.body.elems[i], moved);
      }
    case Slice(_, _, xs) =>
      forall i | 0 <= i < |xs| ensures NoNaN(xs[i]) <==> NoNaN(n.body.items[i]) {
        ReorderedNoNaN(xs[i], n.body.items[i], moved);
      }
    case _ =>
  }

  lemma {:induction false} EntriesNoNaN(a: Value, b: Value, moved: bool)
    requires WellTyped(a) && WellTyped(b) && Reordered(a, b, moved) && a.node.body.Entries?
    ensures NoNaN(a) <==> NoNaN(b)
    decreases a, 0
  {
    var xs, ys := a.node.body.entries, b.node.body.entries;
    forall i, j | 0 <= i < |xs| && 0 <= j < |ys| && xs[i].key == ys[j].key
      ensures NoNaN(xs[i].value) <==> NoNaN(ys[j].value)
    {
      ReorderedNoNaN(xs[i].value, ys[j].value, moved);
    }
    assert forall i | 0 <= i < |xs| :: KeyOf(ys, xs[i].key);
    assert forall j | 0 <= j < |ys| :: KeyOf(xs, ys[j].key);
  }

  lemma {:induction false} SameSymmetric(env: Env, a: Option<Value>, b: Option<Value>)
    requires WellTypedOpt(a) && WellTypedOpt(b) && EqualIsEquivalence(env)
    requires Same(env, a, b)
    ensures Same(env, b, a)
    decreases if a.Some? then 1 else 0, if a.Some? then a.value else LEAF
  {
    if a.Some? {
      var m, n := a.value.node, b.value.node;
      match m.body
      case Elem(x) => SameSymmetric(env, x, n.body.target);
      case Fields(xs) =>
        if !m.t.usesEqual {
          forall i | 0 <= i < |xs| && Compared(m.t.fields[i])
            ensures Same(env, Some(n.body.fields[i]), Some(xs[i]))
          {
            SameSymmetric(env, Some(xs[i]), Some(n.body.fields[i]));
          }
        }
      case Entries(_, _, xs) => EntriesSymmetric(env, a.value, b.value);
      case Elems(xs) =>
        forall i | 0 <= i < |xs| ensures Same(env, Some(n.body.elems[i]), Some(xs[i])) {
          SameSymmetric(env, Some(xs[i]), Some(n.body.elems[i]));
        }
      case Slice(_, _, xs) =>
        forall i | 0 <= i < |xs| ensures Same(env, Some(n.body.items[i]), Some(xs[i])) {
          SameSymmetric(env, Some(xs[i]), Some(n.body.items[i]));
        }
      case _ =>
    }
  }

  lemma {:induction false} EntriesSymmetric(env: Env, a: Value, b: Value)
    requires WellTyped(a) && WellTyped(b) && EqualIsEquivalence(env)
    requires a.node.body.Entries? && Same(env, Some(a), Some(b))
    ensures SameEntries(env, b, b.node.body.entries, a.node.body.entries)
    decreases 1, a, 0
  {
    var xs, ys := a.node.body.entries, b.node.body.entries;
    forall i, j | 0 <= i < |ys| && 0 <= j < |xs| && ys[i].key == xs[j].key
      ensures Same(env, Some(ys[i].value), Some(xs[j].value))
    {
      SameSymmetric(env, Some(xs[j].value), Some(ys[i].value));
    }
  }

  lemma {:induction false} SameTransitive(env: Env, a: Option<Value>, b: Option<Value>, c: Option<Value>)
    requires WellTypedOpt(a) && WellTypedOpt(b) && WellTypedOpt(c) && EqualIsEquivalence(env)
    requires Same(env, a, b) && Same(env, b, c)
    ensures Same(env, a, c)
    decreases if a.Some? then 1 else 0, if a.Some? then a.value else LEAF
  {
    if a.Some? {
      var l, m, n := a.value.node, b.value.node, c.value.node;
      match l.body
      case Elem(x) => SameTransitive(env, x, m.body.target, n.body.target);
      case Fields(xs) =>
        if !l.t.usesEqual {
          forall i | 0 <= i < |xs| && Compared(l.t.fields[i])
            ensures Same(env, Some(xs[i]), Some(n.body.fields[i]))
          {
            SameTransitive(env, Some(xs[i]), Some(m.body.fields[i]), Some(n.body.fields[i]));
          }
        }
      case Entries(_, _, xs) => EntriesTransitive(env, a.value, b.value, c.value);
      case Elems(xs) =>
        forall i | 0 <= i < |xs| ensures Same(env, Some(xs[i]), Some(n.body.elems[i])) {
          SameTransitive(env, Some(xs[i]), Some(m.body.elems[i]), Some(n.body.elems[i]));
        }
      case Slice(_, _, xs) =>
        forall i | 0 <= i < |xs| ensures Same(env, Some(xs[i]), Some(n.body.items[i])) {
          SameTransitive(env, Some(xs[i]), Some(m.body.items[i]), Some(n.body.items[i]));
        }
      case _ =>
    }
  }

  lemma {:induction false} EntriesTransitive(env: Env, a: Value, b: Value, c: Value)
    requires WellTyped(a) && WellTyped(b) && WellTyped(c) && EqualIsEquivalence(env)
    requires a.node.body.Entries? && Same(env, Some(a), Some(b)) && Same(env, Some(b), Some(c))
    ensures SameEntries(env, a, a.node.body.entries, c.node.body.entries)
    decreases 1, a, 0
  {
    var xs, ys, zs := a.node.body.entries, b.node.body.entries, c.node.body.entries;
    forall i, k | 0 <= i < |xs| && 0 <= k < |zs| && xs[i].key == zs[k].key
      ensures Same(env, Some(xs[i].value), Some(zs[k].value))
    {
      var j := LookupIndex(ys, xs[i].key);
      assert Lookup(ys, xs[i].key).Some?;
      SameTransitive(env, Some(xs[i].value), Some(ys[j].value), Some(zs[k].value));
    }
    forall i | 0 <= i < |xs| ensures Lookup(zs, xs[i].key).Some? {
      assert Lookup(ys, xs[i].key).Some?;
      var j := LookupIndex(ys, xs[i].key);
      assert Lookup(zs, ys[j].key).Some?;
    }
    forall k | 0 <= k < |zs| ensures Lookup(xs, zs[k].key).Some? {
      assert Lookup(ys, zs[k].key).Some?;
      var j := LookupIndex(ys, zs[k].key);
      assert Lookup(xs, ys[j].key).Some?;
    }
  }

  /** Whatever orders the two runs list map keys in, they agree on whether there is a difference. */
  lemma MapOrderIrrelevant(env: Env, a: Value, a': Value, b: Value, b': Value, moved: bool)
    requires WellTyped(a) && WellTyped(a') && WellTyped(b) && WellTyped(b') && EqualIsEquivalence(env)
    requires Reordered(a, a', moved) && Reordered(b, b', moved)
    ensures Same(env, Some(a), Some(b)) <==> Same(env, Some(a'), Some(b'))
  {
    hide Same, Reordered, NoNaN;
    ReorderedNoNaN(a, a', moved);
    ReorderedNoNaN(b, b', moved);
    if Same(env, Some(a), Some(b)) {
      SameNaNFree(env, a, b);
      ReorderedSame(env, a, a', moved);
      ReorderedSame(env, b, b', moved);
      SameSymmetric(env, Some(a), Some(a'));
      SameTransitive(env, Some(a'), Some(a), Some(b));
      SameTransitive(env, Some(a'), Some(b), Some(b'));
    }
    if Same(env, Some(a'), Some(b')) {
      SameNaNFree(env, a', b');
      ReorderedSame(env, a, a', moved);
      ReorderedSame(env, b, b', moved);
      SameSymmetric(env, Some(b), Some(b'));
      SameTransitive(env, Some(a), Some(a'), Some(b'));
      SameTransitive(env, Some(a), Some(b'), Some(b));
    }
  }

  lemma SameNaNFree(env: Env, a: Value, b: Value)
    requires WellTyped(a) && WellTyped(b) && EqualIsEquivalence(env) && Same(env, Some(a), Some(b))
    ensures NoNaN(a) && NoNaN(b)
  {
    SameNoNaN(env, a, b);
    SameSymmetric(env, Some(a), Some(b));
    SameNoNaN(env, b, a);
  }
}
