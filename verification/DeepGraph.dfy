/**
  The same comparer over addresses. Nodes may point back to earlier nodes, so values may be cyclic
  and infinitely deep; with MaxDepth at least 1 the comparison still terminates, equals the tree
  comparison of the two values cut off below the depth limit, and is unaffected by the shortcuts.
 */
module DeepGraph {
  import opened Common
  import opened DeepValues
  import opened DeepDiff
  import DeepCap

  /** What each address holds. */
  type Graph = nat -> Node<nat>

  ghost predicate GraphOK(g: Graph) {
    forall r: nat {:trigger g(r)} :: NodeOK(g(r))
  }

  /** Levels left, the measure of termination on cyclic values. */
  function Left(cfg: Config, level: int): nat {
    if level <= cfg.maxDepth then cfg.maxDepth - level + 1 else 0
  }

  function Show(g: Graph, r: Option<nat>): Shown {
    match r
    case None => INVALID
    case Some(x) => Printed(g(x).id)
  }

  function LoneAt(g: Graph, it: Item<nat>, path: seq<Step>): Diff
    requires !it.Both?
  {
    match it
    case OnlyLeft(s, l, note) => Diff(path + [s], Show(g, l), note)
    case OnlyRight(s, r, note) => Diff(path + [s], note, Show(g, r))
  }

  function HalfNilAt(g: Graph, a: Option<nat>, b: Option<nat>, path: seq<Step>): seq<Diff>
    requires a.None? || b.None?
  {
    if a.Some? then [Diff(path, TypeName(g(a.value).t), NIL_POINTER)]
    else if b.Some? then [Diff(path, NIL_POINTER, TypeName(g(b.value).t))]
    else []
  }

  ghost function GraphRun(env: Env, shortcut: bool, cfg: Config, g: Graph, a: Option<nat>, b: Option<nat>,
                          path: seq<Step>, level: int, room: int): seq<Diff>
    requires GraphOK(g) && cfg.maxDepth >= 1
    decreases Left(cfg, level), 1, 0
  {
    if TooDeep(cfg, level) then []
    else if a.None? || b.None? then HalfNilAt(g, a, b, path)
    else
      var m, n := g(a.value), g(b.value);
      match Head(env, shortcut, m, n)
      case Quiet => []
      case Report(l, r) => [Diff(path, l, r)]
      case Through(x, y) => GraphRun(env, shortcut, cfg, g, x, y, path, level + 1, room)
      case Scan => GraphItems(env, shortcut, cfg, g, Items(m, n), path, level, room)
  }

  ghost function GraphItems(env: Env, shortcut: bool, cfg: Config, g: Graph, items: seq<Item<nat>>,
                            path: seq<Step>, level: int, room: int): seq<Diff>
    requires GraphOK(g) && 1 <= cfg.maxDepth && level <= cfg.maxDepth
    decreases Left(cfg, level), 0, |items|
  {
    if items == [] then []
    else
      var it := items[0];
      var h := if it.Both?
               then GraphRun(env, shortcut, cfg, g, Some(it.x), Some(it.y), path + [it.step], level + 1, room)
               else [LoneAt(g, it, path)];
      if |h| >= room then h
      else h + GraphItems(env, shortcut, cfg, g, items[1..], path, level, room - |h|)
  }

  // ----- Cutting a graph down to a tree

  const STUB := GoType("", OtherKind, false, false, [], 0)

  /** The tree of `n` layers below an address. */
  function Unfold(g: Graph, r: nat, n: nat): Value
    decreases n, 0
  {
    if n == 0 then Value(Node(STUB, g(r).id, Opaque)) else Value(UnfoldNode(g, g(r), n - 1))
  }

  function UnfoldNode(g: Graph, m: Node<nat>, n: nat): Node<Value>
    decreases n, 1
  {
    Node(m.t, m.id,
         match m.body
         case Elem(x) => Elem(if x.Some? then Some(Unfold(g, x.value, n)) else None)
         case Fields(xs) => Fields(seq(|xs|, i requires 0 <= i < |xs| => Unfold(g, xs[i], n)))
         case Entries(isNil, addr, es) =>
           Entries(isNil, addr, seq(|es|, i requires 0 <= i < |es| => Entry(es[i].key, Unfold(g, es[i].value, n))))
         case Elems(xs) => Elems(seq(|xs|, i requires 0 <= i < |xs| => Unfold(g, xs[i], n)))
         case Slice(isNil, addr, xs) =>
           Slice(isNil, addr, seq(|xs|, i requires 0 <= i < |xs| => Unfold(g, xs[i], n)))
         case Float(x) => Float(x)
         case Bool(x) => Bool(x)
         case Int(x) => Int(x)
         case Uint(x) => Uint(x)
         case Str(x) => Str(x)
         case Opaque => Opaque)
  }

  function UnfoldOpt(g: Graph, r: Option<nat>, n: nat): Option<Value> {
    if r.Some? then Some(Unfold(g, r.value, n)) else None
  }

  ghost predicate Mirrors(g: Graph, n: nat, it: Item<nat>, t: Item<Value>) {
    match it
    case Both(s, x, y) => t == Both(s, Unfold(g, x, n), Unfold(g, y, n))
    case OnlyLeft(s, l, note) => t == OnlyLeft(s, UnfoldOpt(g, l, n), note)
    case OnlyRight(s, r, note) => t == OnlyRight(s, UnfoldOpt(g, r, n), note)
  }

  ghost predicate MirrorsAll(g: Graph, n: nat, items: seq<Item<nat>>, trees: seq<Item<Value>>) {
    |items| == |trees| && forall i | 0 <= i < |items| :: Mirrors(g, n, items[i], trees[i])
  }

  lemma {:induction false} UnfoldTyped(g: Graph, r: nat, n: nat)
    requires GraphOK(g)
    ensures WellTyped(Unfold(g, r, n))
    decreases n
  {
    if n > 0 {
      assert NodeOK(g(r));
      var u := UnfoldNode(g, g(r), n - 1);
      UnfoldOK(g, g(r), n - 1);
      match g(r).body
      case Elem(x) =>
        if x.Some? {
          UnfoldTyped(g, x.value, n - 1);
        }
      case Fields(xs) =>
        forall i | 0 <= i < |xs| ensures WellTyped(u.body.fields[i]) { UnfoldTyped(g, xs[i], n - 1); }
      case Entries(_, _, es) =>
        forall i | 0 <= i < |es| ensures WellTyped(u.body.entries[i].value) { UnfoldTyped(g, es[i].value, n - 1); }
      case Elems(xs) =>
        forall i | 0 <= i < |xs| ensures WellTyped(u.body.elems[i]) { UnfoldTyped(g, xs[i], n - 1); }
      case Slice(_, _, xs) =>
        forall i | 0 <= i < |xs| ensures WellTyped(u.body.items[i]) { UnfoldTyped(g, xs[i], n - 1); }
      case _ =>
    }
  }

  lemma UnfoldOK(g: Graph, m: Node<nat>, n: nat)
    requires NodeOK(m)
    ensures NodeOK(UnfoldNode(g, m, n))
  {
    hide Unfold;
  }

  lemma LookupUnfold(g: Graph, es: seq<Entry<nat>>, ts: seq<Entry<Value>>, k: Key, n: nat)
    requires |es| == |ts|
    requires forall i | 0 <= i < |es| :: ts[i] == Entry(es[i].key, Unfold(g, es[i].value, n))
    ensures Lookup(ts, k) == UnfoldOpt(g, Lookup(es, k), n)
  {
    if es != [] && !k.nan && es[0].key != k {
      LookupUnfold(g, es[1..], ts[1..], k, n);
    }
  }

  lemma FieldsMirror(g: Graph, infos: seq<FieldInfo>, xs: seq<nat>, ys: seq<nat>, us: seq<Value>, vs: seq<Value>,
                     n: nat, i: nat)
    requires |infos| == |xs| == |ys| == |us| == |vs| && i <= |xs|
    requires forall j | 0 <= j < |xs| :: us[j] == Unfold(g, xs[j], n) && vs[j] == Unfold(g, ys[j], n)
    ensures MirrorsAll(g, n, FieldItems(infos, xs, ys, i), FieldItems(infos, us, vs, i))
    decreases |xs| - i
  {
    if i < |xs| {
      FieldsMirror(g, infos, xs, ys, us, vs, n, i + 1);
    }
  }

  lemma ElemsMirror(g: Graph, xs: seq<nat>, ys: seq<nat>, us: seq<Value>, vs: seq<Value>, n: nat, i: nat)
    requires |xs| == |ys| == |us| == |vs| && i <= |xs|
    requires forall j | 0 <= j < |xs| :: us[j] == Unfold(g, xs[j], n) && vs[j] == Unfold(g, ys[j], n)
    ensures MirrorsAll(g, n, ElemItems(xs, ys, i), ElemItems(us, vs, i))
    decreases |xs| - i
  {
    if i < |xs| {
      ElemsMirror(g, xs, ys, us, vs, n, i + 1);
    }
  }

  lemma SlicesMirror(g: Graph, xs: seq<nat>, ys: seq<nat>, us: seq<Value>, vs: seq<Value>, n: nat, i: nat)
    requires |xs| == |us| && |ys| == |vs| && i <= Max(|xs|, |ys|)
    requires forall j | 0 <= j < |xs| :: us[j] == Unfold(g, xs[j], n)
    requires forall j | 0 <= j < |ys| :: vs[j] == Unfold(g, ys[j], n)
    ensures MirrorsAll(g, n, SliceItems(xs, ys, i), SliceItems(us, vs, i))
    decreases Max(|xs|, |ys|) - i
  {
    if i < Max(|xs|, |ys|) {
      SlicesMirror(g, xs, ys, us, vs, n, i + 1);
    }
  }

  lemma KeysMirror(g: Graph, xs: seq<Entry<nat>>, ys: seq<Entry<nat>>, us: seq<Entry<Value>>, vs: seq<Entry<Value>>,
                   n: nat, i: nat)
    requires |xs| == |us| && |ys| == |vs| && i <= |xs|
    requires forall j | 0 <= j < |xs| :: us[j] == Entry(xs[j].key, Unfold(g, xs[j].value, n))
    requires forall j | 0 <= j < |ys| :: vs[j] == Entry(ys[j].key, Unfold(g, ys[j].value, n))
    ensures MirrorsAll(g, n, KeyItems(xs, ys, i), KeyItems(us, vs, i))
    decreases |xs| - i
  {
    if i < |xs| {
      KeysMirror(g, xs, ys, us, vs, n, i + 1);
      LookupUnfold(g, xs, us, xs[i].key, n);
      LookupUnfold(g, ys, vs, xs[i].key, n);
    }
  }

  lemma ExtrasMirror(g: Graph, xs: seq<Entry<nat>>, ys: seq<Entry<nat>>, us: seq<Entry<Value>>,
                     vs: seq<Entry<Value>>, n: nat, i: nat)
    requires |xs| == |us| && |ys| == |vs| && i <= |ys|
    requires forall j | 0 <= j < |xs| :: us[j] == Entry(xs[j].key, Unfold(g, xs[j].value, n))
    requires forall j | 0 <= j < |ys| :: vs[j] == Entry(ys[j].key, Unfold(g, ys[j].value, n))
    ensures MirrorsAll(g, n, ExtraItems(xs, ys, i), ExtraItems(us, vs, i))
    decreases |ys| - i
  {
    if i < |ys| {
      ExtrasMirror(g, xs, ys, us, vs, n, i + 1);
      LookupUnfold(g, xs, us, ys[i].key, n);
      LookupUnfold(g, ys, vs, ys[i].key, n);
    }
  }

  lemma ItemsMirror(g: Graph, a: Node<nat>, b: Node<nat>, n: nat)
    requires NodeOK(a) && NodeOK(b) && a.t == b.t
    requires NodeOK(UnfoldNode(g, a, n)) && NodeOK(UnfoldNode(g, b, n))
    ensures MirrorsAll(g, n, Items(a, b), Items(UnfoldNode(g, a, n), UnfoldNode(g, b, n)))
  {
    var u, v := UnfoldNode(g, a, n), UnfoldNode(g, b, n);
    match a.body
    case Fields(xs) => FieldsMirror(g, a.t.fields, xs, b.body.fields, u.body.fields, v.body.fields, n, 0);
    case Entries(_, _, xs) =>
      KeysMirror(g, xs, b.body.entries, u.body.entries, v.body.entries, n, 0);
      ExtrasMirror(g, xs, b.body.entries, u.body.entries, v.body.entries, n, 0);
    case Elems(xs) => ElemsMirror(g, xs, b.body.elems, u.body.elems, v.body.elems, n, 0);
    case Slice(_, _, xs) => SlicesMirror(g, xs, b.body.items, u.body.items, v.body.items, n, 0);
    case _ =>
  }

  lemma HeadMirror(env: Env, g: Graph, a: Node<nat>, b: Node<nat>, n: nat)
    requires NodeOK(a) && NodeOK(b)
    requires NodeOK(UnfoldNode(g, a, n)) && NodeOK(UnfoldNode(g, b, n))
    ensures var v := Head(env, true, UnfoldNode(g, a, n), UnfoldNode(g, b, n));
            match Head(env, true, a, b)
            case Quiet => v == Quiet
            case Report(l, r) => v == Report(l, r)
            case Through(x, y) => v == Through(UnfoldOpt(g, x, n), UnfoldOpt(g, y, n))
            case Scan => v == Scan
  {
  }

  /**
    The run over a possibly cyclic graph is the run over its finite unfolding, as soon as the
    unfolding has a layer for every level the depth limit allows.
   */
  lemma {:induction false} GraphRunIsTreeRun(env: Env, cfg: Config, g: Graph, a: Option<nat>, b: Option<nat>,
                                             path: seq<Step>, level: int, room: int, n: nat)
    requires GraphOK(g) && cfg.maxDepth >= 1 && n >= Left(cfg, level)
    ensures WellTypedOpt(UnfoldOpt(g, a, n)) && WellTypedOpt(UnfoldOpt(g, b, n))
    ensures GraphRun(env, true, cfg, g, a, b, path, level, room)
         == Run(env, cfg, UnfoldOpt(g, a, n), UnfoldOpt(g, b, n), path, level, room)
    decreases Left(cfg, level), 1, 0
  {
    if a.Some? { UnfoldTyped(g, a.value, n); }
    if b.Some? { UnfoldTyped(g, b.value, n); }
    if a.Some? && b.Some? && !TooDeep(cfg, level) {
      GraphPairIsTreePair(env, cfg, g, a.value, b.value, path, level, room, n - 1);
    } else if !TooDeep(cfg, level) {
      assert a.Some? ==> Unfold(g, a.value, n).node.t == g(a.value).t;
      assert b.Some? ==> Unfold(g, b.value, n).node.t == g(b.value).t;
    }
  }

  lemma {:induction false} GraphPairIsTreePair(env: Env, cfg: Config, g: Graph, a: nat, b: nat,
                                               path: seq<Step>, level: int, room: int, n: nat)
    requires GraphOK(g) && cfg.maxDepth >= 1 && n + 1 >= Left(cfg, level) && !TooDeep(cfg, level)
    requires WellTyped(Unfold(g, a, n + 1)) && WellTyped(Unfold(g, b, n + 1))
    ensures GraphRun(env, true, cfg, g, Some(a), Some(b), path, level, room)
         == Run(env, cfg, Some(Unfold(g, a, n + 1)), Some(Unfold(g, b, n + 1)), path, level, room)
    decreases Left(cfg, level), 0, 1 + |Items(g(a), if g(a).t == g(b).t then g(b) else g(a))|
  {
    hide Head, Items;
    var l, m := g(a), g(b);
    var u, v := Unfold(g, a, n + 1), Unfold(g, b, n + 1);
    HeadMirror(env, g, l, m, n);
    match Head(env, true, l, m)
    case Through(x, y) =>
      GraphRunIsTreeRun(env, cfg, g, x, y, path, level + 1, room, n);
    case Scan =>
      ScanSameType(env, l, m);
      ItemsMirror(g, l, m, n);
      ItemsBelow(u, v);
      GraphItemsAreTreeItems(env, cfg, g, u, Items(l, m), Items(u.node, v.node), path, level, room, n);
    case _ =>
  }

  lemma ScanSameType(env: Env, a: Node<nat>, b: Node<nat>)
    requires NodeOK(a) && NodeOK(b) && Head(env, true, a, b).Scan?
    ensures a.t == b.t
  {
  }

  lemma {:induction false} GraphItemsAreTreeItems(env: Env, cfg: Config, g: Graph, bound: Value,
                                                  items: seq<Item<nat>>, trees: seq<Item<Value>>,
                                                  path: seq<Step>, level: int, room: int, n: nat)
    requires GraphOK(g) && 1 <= cfg.maxDepth && level <= cfg.maxDepth && n + 1 >= Left(cfg, level)
    requires Below(trees, bound) && MirrorsAll(g, n, items, trees)
    ensures GraphItems(env, true, cfg, g, items, path, level, room)
         == RunItems(env, cfg, bound, trees, path, level, room)
    decreases Left(cfg, level), 0, |items|
  {
    if items != [] {
      var it := items[0];
      assert Mirrors(g, n, it, trees[0]);
      if it.Both? {
        GraphRunIsTreeRun(env, cfg, g, Some(it.x), Some(it.y), path + [it.step], level + 1, room, n);
      } else {
        assert forall r: nat :: Unfold(g, r, n).node.id == g(r).id;
        assert LoneAt(g, it, path) == Lone(trees[0], path);
      }
      var h := RunOne(env, cfg, bound, trees, path, level, room);
      if |h| < room {
        GraphItemsAreTreeItems(env, cfg, g, bound, items[1..], trees[1..], path, level, room - |h|, n);
      }
    }
  }

  /**
    On cyclic values too, the result is the beginning of a full, uncapped difference list: that of
    the two values cut off below the depth limit, restricted to the levels the limit lets through.
   */
  lemma GraphRunIsPrefix(env: Env, cfg: Config, g: Graph, a: nat, b: nat)
    requires GraphOK(g) && cfg.maxDepth >= 1 && cfg.maxDiff >= 1
    ensures var n := cfg.maxDepth + 1;
            var u, v := Unfold(g, a, n), Unfold(g, b, n);
            && WellTyped(u) && WellTyped(v)
            && GraphRun(env, true, cfg, g, Some(a), Some(b), [], 0, cfg.maxDiff)
               == Take(DeepCap.Wanted(env, cfg, Some(u), Some(v), [], 0), cfg.maxDiff)
  {
    hide GraphRun, Run, Unfold, DeepCap.Wanted;
    var n := cfg.maxDepth + 1;
    GraphRunIsTreeRun(env, cfg, g, Some(a), Some(b), [], 0, cfg.maxDiff, n);
    DeepCap.RunIsPrefix(env, cfg, Some(Unfold(g, a, n)), Some(Unfold(g, b, n)), [], 0, cfg.maxDiff);
  }

  // ----- Aliasing

  /** One memory: equal map addresses, or equal slice addresses and lengths, mean equal contents. */
  ghost predicate Coherent(g: Graph) {
    && (forall r: nat, s: nat ::
          g(r).t == g(s).t && g(r).body.Entries? && g(s).body.Entries? && g(r).body.addr == g(s).body.addr
          && g(r).body.isNil == g(s).body.isNil
          ==> g(r).body == g(s).body)
    && (forall r: nat, s: nat ::
          g(r).t == g(s).t && g(r).body.Slice? && g(s).body.Slice? && g(r).body.addr == g(s).body.addr
          && g(r).body.isNil == g(s).body.isNil && |g(r).body.items| == |g(s).body.items|
          ==> g(r).body == g(s).body)
  }

  ghost predicate NoNaNKeys<C>(b: Body<C>) {
    b.Entries? ==> forall i | 0 <= i < |b.entries| :: !b.entries[i].key.nan
  }

  ghost predicate NoNaNGraph(g: Graph) {
    forall r: nat {:trigger g(r)} :: NoNaNKeys(g(r).body)
  }

  ghost predicate Diagonal<C>(items: seq<Item<C>>) {
    forall i | 0 <= i < |items| :: items[i].Both? && items[i].x == items[i].y
  }

  lemma DiagonalLoops(n: Node<nat>, i: nat)
    requires NodeOK(n) && NoNaNKeys(n.body)
    ensures n.body.Fields? && i <= |n.t.fields| ==> Diagonal(FieldItems(n.t.fields, n.body.fields, n.body.fields, i))
    ensures n.body.Elems? && i <= |n.body.elems| ==> Diagonal(ElemItems(n.body.elems, n.body.elems, i))
    ensures n.body.Slice? && i <= |n.body.items| ==> Diagonal(SliceItems(n.body.items, n.body.items, i))
    ensures n.body.Entries? && i <= |n.body.entries| ==>
              && Diagonal(KeyItems(n.body.entries, n.body.entries, i))
              && ExtraItems(n.body.entries, n.body.entries, i) == []
    decreases match n.body
              case Fields(xs) => |xs| - i
              case Elems(xs) => |xs| - i
              case Slice(_, _, xs) => |xs| - i
              case Entries(_, _, xs) => |xs| - i
              case _ => 0
  {
    match n.body
    case Fields(xs) => if i < |xs| { DiagonalLoops(n, i + 1); }
    case Elems(xs) => if i < |xs| { DiagonalLoops(n, i + 1); }
    case Slice(_, _, xs) => if i < |xs| { DiagonalLoops(n, i + 1); }
    case Entries(_, _, xs) =>
      if i < |xs| {
        DiagonalLoops(n, i + 1);
        LookupAt(xs, i);
      }
    case _ =>
  }

  /** A pair with the same type and the same contents is scanned child against itself. */
  lemma ItemsDiagonal(a: Node<nat>, b: Node<nat>)
    requires NodeOK(a) && NodeOK(b) && a.t == b.t && a.body == b.body && NoNaNKeys(a.body)
    ensures Diagonal(Items(a, b))
  {
    DiagonalLoops(a, 0);
  }

  lemma {:induction false} SelfQuiet(env: Env, cfg: Config, g: Graph, a: nat, path: seq<Step>, level: int, room: int)
    requires GraphOK(g) && NoNaNGraph(g) && cfg.maxDepth >= 1 && forall x: nat :: env.equal(x, x)
    ensures GraphRun(env, false, cfg, g, Some(a), Some(a), path, level, room) == []
    decreases Left(cfg, level), 1, 0
  {
    if !TooDeep(cfg, level) {
      assert NoNaNKeys(g(a).body);
      match Head(env, false, g(a), g(a))
      case Through(x, y) =>
        if x.Some? {
          SelfQuiet(env, cfg, g, x.value, path, level + 1, room);
        }
      case Scan =>
        ItemsDiagonal(g(a), g(a));
        DiagonalQuiet(env, cfg, g, Items(g(a), g(a)), path, level, room);
      case _ =>
    }
  }

  lemma {:induction false} DiagonalQuiet(env: Env, cfg: Config, g: Graph, items: seq<Item<nat>>,
                                         path: seq<Step>, level: int, room: int)
    requires GraphOK(g) && NoNaNGraph(g) && 1 <= cfg.maxDepth && level <= cfg.maxDepth
    requires Diagonal(items) && forall x: nat :: env.equal(x, x)
    ensures GraphItems(env, false, cfg, g, items, path, level, room) == []
    decreases Left(cfg, level), 0, |items|
  {
    if items != [] {
      SelfQuiet(env, cfg, g, items[0].x, path + [items[0].step], level + 1, room);
      DiagonalQuiet(env, cfg, g, items[1..], path, level, room);
    }
  }

  /** On any coherent graph, cyclic or not, the shortcuts give what comparing the contents gives. */
  lemma {:induction false} GraphShortcutsChangeNothing(env: Env, cfg: Config, g: Graph, a: Option<nat>, b: Option<nat>,
                                                       path: seq<Step>, level: int, room: int)
    requires GraphOK(g) && Coherent(g) && NoNaNGraph(g) && cfg.maxDepth >= 1
    requires forall x: nat :: env.equal(x, x)
    ensures GraphRun(env, true, cfg, g, a, b, path, level, room)
         == GraphRun(env, false, cfg, g, a, b, path, level, room)
    decreases Left(cfg, level), 1, 0
  {
    if a.Some? && b.Some? && !TooDeep(cfg, level) {
      var l, m := g(a.value), g(b.value);
      match Head(env, true, l, m)
      case Through(x, y) =>
        GraphShortcutsChangeNothing(env, cfg, g, x, y, path, level + 1, room);
      case Scan =>
        ItemsUnderShortcuts(env, cfg, g, Items(l, m), path, level, room);
      case Report(_, _) =>
      case Quiet =>
        if Head(env, false, l, m).Scan? {
          assert NoNaNKeys(l.body) && l.body == m.body;
          ItemsDiagonal(l, m);
          DiagonalQuiet(env, cfg, g, Items(l, m), path, level, room);
        }
    }
  }

  lemma {:induction false} ItemsUnderShortcuts(env: Env, cfg: Config, g: Graph, items: seq<Item<nat>>,
                                               path: seq<Step>, level: int, room: int)
    requires GraphOK(g) && Coherent(g) && NoNaNGraph(g) && 1 <= cfg.maxDepth && level <= cfg.maxDepth
    requires forall x: nat :: env.equal(x, x)
    ensures GraphItems(env, true, cfg, g, items, path, level, room)
         == GraphItems(env, false, cfg, g, items, path, level, room)
    decreases Left(cfg, level), 0, |items|
  {
    if items != [] {
      var it := items[0];
      if it.Both? {
        GraphShortcutsChangeNothing(env, cfg, g, Some(it.x), Some(it.y), path + [it.step], level + 1, room);
      }
      var h := if it.Both?
               then GraphRun(env, true, cfg, g, Some(it.x), Some(it.y), path + [it.step], level + 1, room)
               else [LoneAt(g, it, path)];
      if |h| < room {
        ItemsUnderShortcuts(env, cfg, g, items[1..], path, level, room - |h|);
      }
    }
  }
}
