/**
  What an entry of the difference list shows and at which level it is recorded, fixed by what is
  found at its place in the two values.
 */
module DeepTexts {
  import opened Common
  import opened DeepValues
  import opened DeepDiff
  import opened DeepCap
  import opened DeepEquality
  import opened DeepPaths

  // ----- Places

  /** `v` with `k` pointers or interfaces taken off. */
  function Peel(v: Option<Value>, k: nat): Option<Value>
    requires CanPeel(v, k)
  {
    if k == 0 then v else Peel(v.value.node.body.target, k - 1)
  }

  predicate CanPeel(v: Option<Value>, k: nat) {
    k == 0 || (v.Some? && v.value.node.body.Elem? && CanPeel(v.value.node.body.target, k - 1))
  }

  /** The number of pointers and interfaces on top of `v`. */
  function Hops(v: Option<Value>): nat
    decreases if v.Some? then 1 else 0, if v.Some? then v.value else LEAF
  {
    if v.Some? && v.value.node.body.Elem? then 1 + Hops(v.value.node.body.target) else 0
  }

  /** What following a path costs in levels: one for each step, and one for each pointer passed before a step. */
  function Depth(v: Option<Value>, q: seq<Step>): nat
    decreases |q|
  {
    if q == [] then 0
    else Hops(v) + 1 + Depth(if Strip(v).Some? then Child(Strip(v).value, q[0]) else None, q[1..])
  }

  // ----- Texts

  /** Two values of one type, neither a pointer nor scanned child by child, that are told apart as a whole. */
  ghost predicate ToldApart(env: Env, x: Node<Value>, y: Node<Value>) {
    match x.body
    case Fields(_) => x.t.usesEqual && !env.equal(x.id, y.id)
    case Float(p) => y.body.Float? && env.round(p) != env.round(y.body.bits)
    case Bool(p) => y.body.Bool? && p != y.body.b
    case Int(p) => y.body.Int? && p != y.body.i
    case Uint(p) => y.body.Uint? && p != y.body.n
    case Str(p) => y.body.Str? && p != y.body.s
    case _ => false
  }

  /** How a map or slice is shown: by a note when it is nil. */
  ghost predicate ShownOrNil(x: Node<Value>, isNil: bool, note: string, s: Shown) {
    s == if isNil then Text(note) else Printed(x.id)
  }

  /** What is shown for two values of one type whose error texts do not differ. */
  ghost predicate ShowsValues(env: Env, x: Node<Value>, y: Node<Value>, l: Shown, r: Shown) {
    match x.body
    case Entries(m, _, _) =>
      y.body.Entries? && m != y.body.isNil
      && ShownOrNil(x, m, "<nil map>", l) && ShownOrNil(y, y.body.isNil, "<nil map>", r)
    case Slice(m, _, _) =>
      y.body.Slice? && m != y.body.isNil
      && ShownOrNil(x, m, "<nil slice>", l) && ShownOrNil(y, y.body.isNil, "<nil slice>", r)
    case _ => ToldApart(env, x, y) && l == Printed(x.id) && r == Printed(y.id)
  }

  /**
    What is shown for two places. A place that is not there: the type of the other one and a note.
    Different types: the types. Different error texts: these. Otherwise the values themselves.
   */
  ghost predicate Shows(env: Env, x: Option<Value>, y: Option<Value>, l: Shown, r: Shown) {
    match (x, y)
    case (None, None) => false
    case (Some(u), None) => l == TypeName(u.node.t) && r == Text("<nil pointer>")
    case (None, Some(v)) => l == Text("<nil pointer>") && r == TypeName(v.node.t)
    case (Some(u), Some(v)) =>
      var m, n := u.node, v.node;
      if m.t != n.t then l == TypeName(m.t) && r == TypeName(n.t)
      else if m.t.isError && m.body != Elem(None) && n.body != Elem(None) && env.errorText(m.id) != env.errorText(n.id)
      then l == Text(env.errorText(m.id)) && r == Text(env.errorText(n.id))
      else ShowsValues(env, m, n, l, r)
  }

  /** What is shown for a key or index that only one side has; a NaN key is found on neither side. */
  ghost predicate ShowsLone(x: Option<Value>, y: Option<Value>, s: Step, l: Shown, r: Shown) {
    var note := if s.MapStep? then Text("<does not have key>") else Text("<no value>");
    && (s.MapStep? || s.SliceStep?)
    && match (x, y)
       case (Some(u), None) => l == Printed(u.node.id) && r == note
       case (None, Some(v)) => l == note && r == Printed(v.node.id)
       case (None, None) =>
         var nothing := Text("<invalid reflect.Value>");
         NaNStep(s) && ((l == nothing && r == note) || (l == note && r == nothing))
       case _ => false
  }

  /** The entry is for the pair `k` pointers below the place `q`. */
  ghost predicate PairEntry(env: Env, a: Option<Value>, b: Option<Value>, f: Found, base: int, q: seq<Step>, k: nat) {
    && CanPeel(Follow(a, q), k) && CanPeel(Follow(b, q), k)
    && Shows(env, Peel(Follow(a, q), k), Peel(Follow(b, q), k), f.diff.left, f.diff.right)
    && f.level == base + Depth(a, q) + k
  }

  /** The entry is for a place that one side lacks, recorded while its parent was looked at. */
  ghost predicate LoneEntry(a: Option<Value>, b: Option<Value>, f: Found, base: int, q: seq<Step>) {
    && q != [] && ShowsLone(Follow(a, q), Follow(b, q), q[|q| - 1], f.diff.left, f.diff.right)
    && f.level == base + Depth(a, q) - 1
  }

  ghost predicate Explained(env: Env, a: Option<Value>, b: Option<Value>, f: Found, base: int, q: seq<Step>) {
    LoneEntry(a, b, f, base, q) || exists k: nat :: PairEntry(env, a, b, f, base, q, k)
  }

  ghost predicate AllExplained(env: Env, a: Option<Value>, b: Option<Value>, base: int, path: seq<Step>,
                               fs: seq<Found>) {
    forall i | 0 <= i < |fs| :: path <= fs[i].diff.path && Explained(env, a, b, fs[i], base, fs[i].diff.path[|path|..])
  }

  // ----- Every entry is explained

  /** A path from a pointer is one from its target, and one level more. */
  lemma FollowThrough(a: Value, q: seq<Step>)
    requires a.node.body.Elem? && q != []
    ensures Follow(Some(a), q) == Follow(a.node.body.target, q)
    ensures Depth(Some(a), q) == 1 + Depth(a.node.body.target, q)
  {
    assert Strip(Some(a)) == Strip(a.node.body.target) && Hops(Some(a)) == 1 + Hops(a.node.body.target);
  }

  lemma PeelOne(a: Value, k: nat)
    requires a.node.body.Elem? && CanPeel(a.node.body.target, k)
    ensures CanPeel(Some(a), k + 1) && Peel(Some(a), k + 1) == Peel(a.node.body.target, k)
  {
  }

  /** What is explained for two targets is explained for the pointers to them. */
  lemma ThroughExplained(env: Env, a: Value, b: Value, f: Found, base: int, q: seq<Step>)
    requires a.node.body.Elem? && b.node.body.Elem?
    requires Explained(env, a.node.body.target, b.node.body.target, f, base + 1, q)
    ensures Explained(env, Some(a), Some(b), f, base, q)
  {
    hide Shows, ShowsLone, CanPeel, Peel, Hops;
    var x, y := a.node.body.target, b.node.body.target;
    if q != [] {
      hide Follow, Depth;
      FollowThrough(a, q);
      FollowThrough(b, q);
    }
    if LoneEntry(x, y, f, base + 1, q) {
      assert LoneEntry(Some(a), Some(b), f, base, q);
    } else {
      var k: nat :| PairEntry(env, x, y, f, base + 1, q, k);
      if q == [] {
        PeelOne(a, k);
        PeelOne(b, k);
        assert PairEntry(env, Some(a), Some(b), f, base, q, k + 1);
      } else {
        assert PairEntry(env, Some(a), Some(b), f, base, q, k);
      }
    }
  }

  /** One step from a value that is not a pointer. */
  lemma FollowStep(a: Value, s: Step, q: seq<Step>)
    requires !a.node.body.Elem?
    ensures Follow(Some(a), [s] + q) == Follow(Child(a, s), q) && Depth(Some(a), [s] + q) == 1 + Depth(Child(a, s), q)
  {
    var p := [s] + q;
    assert p[0] == s && p[1..] == q && Strip(Some(a)) == Some(a);
  }

  /** What is explained for two children is explained for the values they are children of. */
  lemma StepExplained(env: Env, a: Value, b: Value, s: Step, f: Found, base: int, q: seq<Step>)
    requires !a.node.body.Elem? && !b.node.body.Elem?
    requires Explained(env, Child(a, s), Child(b, s), f, base + 1, q)
    ensures Explained(env, Some(a), Some(b), f, base, [s] + q)
  {
    hide Follow, Depth, Shows, ShowsLone, CanPeel, Peel;
    var p := [s] + q;
    FollowStep(a, s, q);
    FollowStep(b, s, q);
    if LoneEntry(Child(a, s), Child(b, s), f, base + 1, q) {
      assert p[|p| - 1] == q[|q| - 1];
      assert LoneEntry(Some(a), Some(b), f, base, p);
    } else {
      var k: nat :| PairEntry(env, Child(a, s), Child(b, s), f, base + 1, q, k);
      assert PairEntry(env, Some(a), Some(b), f, base, p, k);
    }
  }

  lemma LoneExplained(env: Env, a: Value, b: Value, it: Item<Value>, path: seq<Step>, level: int)
    requires WellTyped(a) && WellTyped(b) && !a.node.body.Elem? && !b.node.body.Elem?
    requires !it.Both? && ItemOK(a, b, it) && SidesPresent([it])
    ensures Explained(env, Some(a), Some(b), Found(level, Lone(it, path)), level, [it.step])
  {
    var q := [it.step];
    assert q == [it.step] + [] && it == [it][0];
    FollowStep(a, it.step, []);
    FollowStep(b, it.step, []);
    assert LoneEntry(Some(a), Some(b), Found(level, Lone(it, path)), level, q);
  }

  lemma ReportExplained(env: Env, shortcut: bool, a: Value, b: Value, path: seq<Step>, level: int)
    requires WellTyped(a) && WellTyped(b) && Head(env, shortcut, a.node, b.node).Report?
    ensures var v := Head(env, shortcut, a.node, b.node);
            Explained(env, Some(a), Some(b), Found(level, Diff(path, v.left, v.right)), level, [])
  {
    var v := Head(env, shortcut, a.node, b.node);
    ReportShows(env, shortcut, a, b);
    HereExplained(env, Some(a), Some(b), Found(level, Diff(path, v.left, v.right)), level);
  }

  lemma HereExplained(env: Env, a: Option<Value>, b: Option<Value>, f: Found, base: int)
    requires Shows(env, a, b, f.diff.left, f.diff.right) && f.level == base
    ensures Explained(env, a, b, f, base, [])
  {
    hide Shows;
    assert PairEntry(env, a, b, f, base, [], 0);
  }

  lemma ReportShows(env: Env, shortcut: bool, a: Value, b: Value)
    requires WellTyped(a) && WellTyped(b) && Head(env, shortcut, a.node, b.node).Report?
    ensures var v := Head(env, shortcut, a.node, b.node); Shows(env, Some(a), Some(b), v.left, v.right)
  {
    hide ShowsValues;
    if a.node.t == b.node.t && !ErrorsDiffer(env, a.node, b.node) {
      ReportShowsValues(env, shortcut, a, b);
    }
  }

  lemma ReportShowsValues(env: Env, shortcut: bool, a: Value, b: Value)
    requires Alike(a, b) && Head(env, shortcut, a.node, b.node).Report? && !ErrorsDiffer(env, a.node, b.node)
    ensures var v := Head(env, shortcut, a.node, b.node); ShowsValues(env, a.node, b.node, v.left, v.right)
  {
    match a.node.body
    case Entries(_, _, _) =>
    case Slice(_, _, _) =>
    case _ =>
  }

  lemma {:induction false} DiffsExplained(env: Env, shortcut: bool, a: Option<Value>, b: Option<Value>,
                                          path: seq<Step>, level: int)
    requires WellTypedOpt(a) && WellTypedOpt(b)
    ensures AllExplained(env, a, b, level, path, Diffs(env, shortcut, a, b, path, level))
    decreases if a.Some? then 1 else 0, if a.Some? then a.value else LEAF, 1, 0
  {
    hide Explained;
    assert path[|path|..] == [];
    var fs := Diffs(env, shortcut, a, b, path, level);
    if a.Some? && b.Some? {
      match Head(env, shortcut, a.value.node, b.value.node)
      case Quiet =>
      case Report(_, _) => ReportExplained(env, shortcut, a.value, b.value, path, level);
      case Through(x, y) =>
        DiffsExplained(env, shortcut, x, y, path, level + 1);
        forall i | 0 <= i < |fs| ensures Explained(env, a, b, fs[i], level, fs[i].diff.path[|path|..]) {
          ThroughExplained(env, a.value, b.value, fs[i], level, fs[i].diff.path[|path|..]);
        }
      case Scan =>
        AllItemsOK(a.value, b.value);
        AllPresent(a.value, b.value);
        ItemsBelow(a.value, b.value);
        ItemsExplained(env, shortcut, a.value, b.value, Items(a.value.node, b.value.node), path, level);
    } else if a.Some? || b.Some? {
      HalfExplained(env, a, b, fs[0], level);
    }
  }

  lemma HalfExplained(env: Env, a: Option<Value>, b: Option<Value>, f: Found, level: int)
    requires a.Some? != b.Some? && f == Found(level, HalfNil(a, b, f.diff.path)[0])
    ensures Explained(env, a, b, f, level, [])
  {
    HereExplained(env, a, b, f, level);
  }

  lemma {:induction false} ItemsExplained(env: Env, shortcut: bool, a: Value, b: Value, items: seq<Item<Value>>,
                                          path: seq<Step>, level: int)
    requires WellTyped(a) && WellTyped(b) && !a.node.body.Elem? && !b.node.body.Elem?
    requires Below(items, a) && ItemsOK(a, b, items) && SidesPresent(items)
    ensures AllExplained(env, Some(a), Some(b), level, path, ItemDiffs(env, shortcut, a, items, path, level))
    decreases 1, a, 0, |items|
  {
    hide Explained, Diffs;
    if items != [] {
      var it := items[0];
      assert ItemOK(a, b, it);
      var one := OneItem(env, shortcut, a, items, path, level);
      if it.Both? {
        DiffsExplained(env, shortcut, Some(it.x), Some(it.y), path + [it.step], level + 1);
        forall i | 0 <= i < |one|
          ensures path <= one[i].diff.path
          ensures Explained(env, Some(a), Some(b), one[i], level, one[i].diff.path[|path|..])
        {
          var p := one[i].diff.path;
          assert p[|path + [it.step]|..] == p[|path| + 1..];
          assert p[|path|] == (path + [it.step])[|path|] && p[|path|..] == [it.step] + p[|path| + 1..];
          StepExplained(env, a, b, it.step, one[i], level, p[|path| + 1..]);
        }
      } else {
        assert SidesPresent([it]);
        LoneExplained(env, a, b, it, path, level);
        assert one[0].diff.path[|path|..] == [it.step];
      }
      ItemsExplained(env, shortcut, a, b, items[1..], path, level);
    }
  }

  // ----- What a caller of Equal gets

  /** The depth limit lets an entry through exactly when it is recorded at no deeper level. */
  lemma {:induction false} KeptMeaning(maxDepth: int, fs: seq<Found>, d: Diff)
    ensures d in Kept(maxDepth, fs) <==>
              exists i :: 0 <= i < |fs| && fs[i].diff == d && (maxDepth <= 0 || fs[i].level <= maxDepth)
  {
    if fs != [] {
      KeptMeaning(maxDepth, fs[1..], d);
      assert forall i | 0 < i < |fs| :: fs[i] == fs[1..][i - 1];
    }
  }

  /**
    Every entry that Equal returns for two values shows what is found at its place, and was recorded
    at a level the depth limit allows.
   */
  lemma AnswerExplained(env: Env, cfg: Config, a: Value, b: Value, d: Diff) returns (f: Found)
    requires WellTyped(a) && WellTyped(b) && d in Answer(env, cfg, Some(a), Some(b))
    ensures f.diff == d && Explained(env, Some(a), Some(b), f, 0, d.path)
    ensures cfg.maxDepth > 0 ==> f.level <= cfg.maxDepth
  {
    hide Explained, Diffs;
    var fs := Diffs(env, true, Some(a), Some(b), [], 0);
    DiffsExplained(env, true, Some(a), Some(b), [], 0);
    KeptMeaning(cfg.maxDepth, fs, d);
    var i :| 0 <= i < |fs| && fs[i].diff == d && (cfg.maxDepth <= 0 || fs[i].level <= cfg.maxDepth);
    f := fs[i];
    assert f.diff.path[0..] == f.diff.path;
  }

  /** How much Equal returns: everything the depth limit lets through, or as much of it as MaxDiff allows. */
  lemma AnswerLength(env: Env, cfg: Config, a: Value, b: Value)
    requires WellTyped(a) && WellTyped(b) && cfg.maxDiff >= 1
    ensures var all, some := Wanted(env, cfg, Some(a), Some(b), [], 0), Answer(env, cfg, Some(a), Some(b));
            && |some| == (if |all| < cfg.maxDiff then |all| else cfg.maxDiff)
            && forall i | 0 <= i < |some| :: some[i] == all[i]
  {
  }
}
