/**
  What the structural comparer of pkg/utils/reflectutils/deep.go can see of a Go value, one
  layer at a time. A layer is generic in how it names its children, so that the same rules serve
  finite trees (DeepDiff) and address graphs that may be cyclic (DeepGraph).
 */
module DeepValues {
  import opened Common

  datatype Kind =
    | Ptr | Interface | StructKind | MapKind | ArrayKind | SliceKind
    | FloatKind | BoolKind | IntKind | UintKind | StringKind | OtherKind

  /** `visible`: exported, or CompareUnexportedFields is set. `ignored`: tagged deep:"-". */
  datatype FieldInfo = FieldInfo(name: string, visible: bool, ignored: bool)

  /** A Go type; type identity is equality. `usesEqual`: it has its own method Equal(T) bool. */
  datatype GoType = GoType(name: string, kind: Kind, isError: bool, usesEqual: bool,
                           fields: seq<FieldInfo>, len: nat)

  /** A map key. A NaN key is never found again, not even in its own map. */
  datatype Key = Key(id: nat, nan: bool)

  datatype Entry<+C> = Entry(key: Key, value: C)

  datatype Body<+C> =
    | Elem(target: Option<C>)                                   // pointer or interface
    | Fields(fields: seq<C>)
    | Entries(isNil: bool, addr: nat, entries: seq<Entry<C>>)   // in this run's key order
    | Elems(elems: seq<C>)
    | Slice(isNil: bool, addr: nat, items: seq<C>)
    | Float(bits: int)
    | Bool(b: bool)
    | Int(i: int)
    | Uint(n: nat)
    | Str(s: string)
    | Opaque

  /** One layer. `id` names the concrete value, for what its methods and its printed form depend on. */
  datatype Node<+C> = Node(t: GoType, id: nat, body: Body<C>)

  /** The parts of Go outside the comparer: Error(), Equal() and the rounded form of a float. */
  datatype Env = Env(errorText: nat -> string, equal: (nat, nat) -> bool, round: int -> string)

  datatype Step = FieldStep(index: nat, name: string) | MapStep(key: Key) | ArrayStep(i: nat) | SliceStep(i: nat)

  datatype Shown = Text(s: string) | TypeName(t: GoType) | Printed(id: nat)

  datatype Diff = Diff(path: seq<Step>, left: Shown, right: Shown)

  const NIL_POINTER := Text("<nil pointer>")
  const NIL_MAP := Text("<nil map>")
  const NIL_SLICE := Text("<nil slice>")
  const NO_KEY := Text("<does not have key>")
  const NO_VALUE := Text("<no value>")
  const INVALID := Text("<invalid reflect.Value>")

  predicate KindMatches<C>(k: Kind, body: Body<C>) {
    match body
    case Elem(_) => k.Ptr? || k.Interface?
    case Fields(_) => k.StructKind?
    case Entries(_, _, _) => k.MapKind?
    case Elems(_) => k.ArrayKind?
    case Slice(_, _, _) => k.SliceKind?
    case Float(_) => k.FloatKind?
    case Bool(_) => k.BoolKind?
    case Int(_) => k.IntKind?
    case Uint(_) => k.UintKind?
    case Str(_) => k.StringKind?
    case Opaque => k.OtherKind?
  }

  predicate DistinctKeys<C>(entries: seq<Entry<C>>) {
    forall i, j | 0 <= i < j < |entries| :: entries[i].key != entries[j].key
  }

  /** What the Go type system promises about one layer. */
  predicate NodeOK<C>(n: Node<C>) {
    && KindMatches(n.t.kind, n.body)
    && (n.body.Fields? ==> |n.body.fields| == |n.t.fields|)
    && (n.body.Elems? ==> |n.body.elems| == n.t.len)
    && (n.body.Entries? ==> DistinctKeys(n.body.entries))
    && (n.body.Entries? && n.body.isNil ==> n.body.entries == [])
    && (n.body.Slice? && n.body.isNil ==> n.body.items == [])
  }

  predicate NilElem<C>(n: Node<C>) {
    n.body.Elem? && n.body.target.None?
  }

  predicate Compared(f: FieldInfo) {
    f.visible && !f.ignored
  }

  /** reflect.Value.MapIndex. */
  function Lookup<C>(entries: seq<Entry<C>>, k: Key): Option<C> {
    if k.nan || entries == [] then None
    else if entries[0].key == k then Some(entries[0].value)
    else Lookup(entries[1..], k)
  }

  lemma LookupIndex<C>(entries: seq<Entry<C>>, k: Key) returns (i: int)
    ensures Lookup(entries, k).Some? ==>
              !k.nan && 0 <= i < |entries| && entries[i] == Entry(k, Lookup(entries, k).value)
    ensures Lookup(entries, k).None? ==> k.nan || forall j | 0 <= j < |entries| :: entries[j].key != k
  {
    i := 0;
    if !k.nan && entries != [] && entries[0].key != k {
      i := LookupIndex(entries[1..], k);
      assert forall j | 1 <= j < |entries| :: entries[j] == entries[1..][j - 1];
      i := i + 1;
    }
  }

  lemma LookupAt<C>(entries: seq<Entry<C>>, i: nat)
    requires i < |entries| && DistinctKeys(entries) && !entries[i].key.nan
    ensures Lookup(entries, entries[i].key) == Some(entries[i].value)
  {
    var k := LookupIndex(entries, entries[i].key);
  }

  // ----- What is decided at a pair before any child is looked at

  datatype Verdict<+C> =
    | Quiet
    | Report(left: Shown, right: Shown)
    | Through(x: Option<C>, y: Option<C>)
    | Scan

  predicate ErrorsDiffer<C>(env: Env, a: Node<C>, b: Node<C>) {
    a.t.isError && b.t.isError && !NilElem(a) && !NilElem(b) && env.errorText(a.id) != env.errorText(b.id)
  }

  /** `shortcut` true is the code; false drops the two same-pointer tests and looks at the contents. */
  function Head<C>(env: Env, shortcut: bool, a: Node<C>, b: Node<C>): (v: Verdict<C>)
    requires NodeOK(a) && NodeOK(b)
  {
    if a.t != b.t then Report(TypeName(a.t), TypeName(b.t))
    else if ErrorsDiffer(env, a, b) then Report(Text(env.errorText(a.id)), Text(env.errorText(b.id)))
    else
      var printed := Report(Printed(a.id), Printed(b.id));
      match a.body
      case Elem(x) => Through(x, b.body.target)
      case Fields(_) =>
        if !a.t.usesEqual then Scan else if env.equal(a.id, b.id) then Quiet else printed
      case Entries(isNil, addr, _) =>
        if isNil && b.body.isNil then Quiet
        else if isNil then Report(NIL_MAP, Printed(b.id))
        else if b.body.isNil then Report(Printed(a.id), NIL_MAP)
        else if shortcut && addr == b.body.addr then Quiet
        else Scan
      case Elems(_) => Scan
      case Slice(isNil, addr, xs) =>
        if isNil && b.body.isNil then Quiet
        else if isNil then Report(NIL_SLICE, Printed(b.id))
        else if b.body.isNil then Report(Printed(a.id), NIL_SLICE)
        else if shortcut && addr == b.body.addr && |xs| == |b.body.items| then Quiet
        else Scan
      case Float(x) => if env.round(x) == env.round(b.body.bits) then Quiet else printed
      case Bool(x) => if x == b.body.b then Quiet else printed
      case Int(x) => if x == b.body.i then Quiet else printed
      case Uint(x) => if x == b.body.n then Quiet else printed
      case Str(x) => if x == b.body.s then Quiet else printed
      case Opaque => Quiet
  }

  // ----- The children of a scanned pair, in the order the loops visit them

  datatype Item<+C> =
    | Both(step: Step, x: C, y: C)
    | OnlyLeft(step: Step, l: Option<C>, note: Shown)
    | OnlyRight(step: Step, r: Option<C>, note: Shown)

  function FieldItems<C>(infos: seq<FieldInfo>, xs: seq<C>, ys: seq<C>, i: nat): seq<Item<C>>
    requires |infos| == |xs| == |ys| && i <= |infos|
    decreases |infos| - i
  {
    if i == |infos| then []
    else if Compared(infos[i]) then
      [Both(FieldStep(i, infos[i].name), xs[i], ys[i])] + FieldItems(infos, xs, ys, i + 1)
    else FieldItems(infos, xs, ys, i + 1)
  }

  function KeyItem<C>(xs: seq<Entry<C>>, ys: seq<Entry<C>>, k: Key): Item<C> {
    var x, y := Lookup(xs, k), Lookup(ys, k);
    if x.Some? && y.Some? then Both(MapStep(k), x.value, y.value) else OnlyLeft(MapStep(k), x, NO_KEY)
  }

  function KeyItems<C>(xs: seq<Entry<C>>, ys: seq<Entry<C>>, i: nat): seq<Item<C>>
    requires i <= |xs|
    decreases |xs| - i
  {
    if i == |xs| then [] else [KeyItem(xs, ys, xs[i].key)] + KeyItems(xs, ys, i + 1)
  }

  function ExtraItems<C>(xs: seq<Entry<C>>, ys: seq<Entry<C>>, i: nat): seq<Item<C>>
    requires i <= |ys|
    decreases |ys| - i
  {
    if i == |ys| then []
    else if Lookup(xs, ys[i].key).Some? then ExtraItems(xs, ys, i + 1)
    else [OnlyRight(MapStep(ys[i].key), Lookup(ys, ys[i].key), NO_KEY)] + ExtraItems(xs, ys, i + 1)
  }

  function ElemItems<C>(xs: seq<C>, ys: seq<C>, i: nat): seq<Item<C>>
    requires |xs| == |ys| && i <= |xs|
    decreases |xs| - i
  {
    if i == |xs| then [] else [Both(ArrayStep(i), xs[i], ys[i])] + ElemItems(xs, ys, i + 1)
  }

  function Max(m: nat, n: nat): nat {
    if m < n then n else m
  }

  function SliceItem<C>(xs: seq<C>, ys: seq<C>, i: nat): Item<C>
    requires i < Max(|xs|, |ys|)
  {
    if i < |xs| && i < |ys| then Both(SliceStep(i), xs[i], ys[i])
    else if i < |xs| then OnlyLeft(SliceStep(i), Some(xs[i]), NO_VALUE)
    else OnlyRight(SliceStep(i), Some(ys[i]), NO_VALUE)
  }

  function SliceItems<C>(xs: seq<C>, ys: seq<C>, i: nat): seq<Item<C>>
    requires i <= Max(|xs|, |ys|)
    decreases Max(|xs|, |ys|) - i
  {
    if i == Max(|xs|, |ys|) then [] else [SliceItem(xs, ys, i)] + SliceItems(xs, ys, i + 1)
  }

  function Items<C>(a: Node<C>, b: Node<C>): seq<Item<C>>
    requires NodeOK(a) && NodeOK(b) && a.t == b.t
  {
    match a.body
    case Fields(xs) => FieldItems(a.t.fields, xs, b.body.fields, 0)
    case Entries(_, _, xs) => KeyItems(xs, b.body.entries, 0) + ExtraItems(xs, b.body.entries, 0)
    case Elems(xs) => ElemItems(xs, b.body.elems, 0)
    case Slice(_, _, xs) => SliceItems(xs, b.body.items, 0)
    case _ => []
  }
}
