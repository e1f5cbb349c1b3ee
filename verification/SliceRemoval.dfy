/** RemoveString of pkg/utils/sliceutil/sliceutils.go, which shifts the slice in place. */
module SliceRemoval {

  function Kept(s: seq<string>, remove: string -> bool): (r: seq<string>)
    ensures |r| <= |s|
  {
    if s == [] then []
    else if remove(s[0]) then Kept(s[1..], remove)
    else [s[0]] + Kept(s[1..], remove)
  }

  lemma {:induction false} KeptOneMore(s: seq<string>, x: string, remove: string -> bool)
    ensures Kept(s + [x], remove) == if remove(x) then Kept(s, remove) else Kept(s, remove) + [x]
  {
    if s == [] {
      assert s + [x] == [x] && [x][1..] == [];
    } else {
      KeptOneMore(s[1..], x, remove);
      assert (s + [x])[1..] == s[1..] + [x];
    }
  }

  /** What is kept: everything `remove` rejects, equally often. */
  lemma {:induction false} KeptCount(s: seq<string>, remove: string -> bool, x: string)
    ensures multiset(Kept(s, remove))[x] == if remove(x) then 0 else multiset(s)[x]
  {
    if s != [] {
      assert s == [s[0]] + s[1..];
      KeptCount(s[1..], remove, x);
    }
  }

  /** append(slice[:i], slice[i+1:]...) for a slice that is the first `len` elements of `a`. */
  method Shift(a: array<string>, i: nat, len: nat)
    requires i < len <= a.Length
    modifies a
    ensures a[..i] == old(a[..i]) && a[i..len - 1] == old(a[i + 1..len]) && a[len - 1..] == old(a[len - 1..])
  {
    forall k | i <= k < len - 1 {
      a[k] := a[k + 1];
    }
  }

  /**
    Half way through: `now` is the backing array, `tested` elements have been asked about, the
    first `i` places hold what was kept of them, and places `m` to `n` have been freed.
   */
  ghost predicate Shifted(was: seq<string>, now: seq<string>, tested: seq<string>, i: nat, m: nat, n: nat,
                          remove: string -> bool)
    requires i <= m <= n <= |was| == |now|
  {
    && |tested| + (m - i) == n && tested == was[..|tested|]
    && now[..i] == Kept(tested, remove)
    && now[i..m] == was[|tested|..n]
    && (forall k | m <= k < n :: now[k] == was[n - 1])
    && now[n..] == was[n..]
  }

  lemma KeepOne(was: seq<string>, now: seq<string>, tested: seq<string>, i: nat, m: nat, n: nat, remove: string -> bool)
    requires i < m <= n <= |was| == |now| && Shifted(was, now, tested, i, m, n, remove) && !remove(now[i])
    ensures Shifted(was, now, tested + [now[i]], i + 1, m, n, remove)
  {
    hide Kept;
    var x := now[i];
    assert x == now[i..m][0] == was[|tested|];
    KeptOneMore(tested, x, remove);
    assert now[..i + 1] == now[..i] + [x];
    assert now[i + 1..m] == now[i..m][1..];
    assert was[..|tested| + 1] == was[..|tested|] + [x];
  }

  lemma DropOne(was: seq<string>, now: seq<string>, next: seq<string>, tested: seq<string>, i: nat, m: nat, n: nat,
                remove: string -> bool)
    requires i < m <= n <= |was| == |now| == |next| && Shifted(was, now, tested, i, m, n, remove) && remove(now[i])
    requires next[..i] == now[..i] && next[i..m - 1] == now[i + 1..m] && next[m - 1..] == now[m - 1..]
    ensures Shifted(was, next, tested + [now[i]], i, m - 1, n, remove)
  {
    hide Kept;
    var x := now[i];
    assert x == now[i..m][0] == was[|tested|];
    KeptOneMore(tested, x, remove);
    assert was[..|tested| + 1] == was[..|tested|] + [x];
    assert now[i + 1..m] == now[i..m][1..];
    assert now[m - 1] == now[i..m][m - 1 - i] == was[n - 1];
    forall k | m - 1 <= k < |was| ensures next[k] == now[k] {
      assert next[m - 1..][k - (m - 1)] == now[m - 1..][k - (m - 1)];
    }
    assert next[n..] == now[n..];
  }

  /**
    RemoveString on the first `n` elements of a backing array. The result is the first `m`
    elements: what `remove` rejects, in order. Every element is asked about once, from left to
    right, and the freed places hold copies of the last element.
   */
  method RemoveString(a: array<string>, n: nat, remove: string -> bool) returns (m: nat, ghost tested: seq<string>)
    requires n <= a.Length
    modifies a
    ensures m <= n && a[..m] == Kept(old(a[..n]), remove)
    ensures tested == old(a[..n])
    ensures forall k | m <= k < n :: a[k] == old(a[n - 1])
    ensures a[n..] == old(a[n..])
  {
    ghost var was := a[..];
    m := n;
    tested := [];
    var i := 0;
    while i < m
      invariant 0 <= i <= m <= n
      invariant Shifted(was, a[..], tested, i, m, n, remove)
      decreases m - i
    {
      ghost var now, x := a[..], a[i];
      if remove(a[i]) {
        Shift(a, i, m);
        DropOne(was, now, a[..], tested, i, m, n, remove);
        m := m - 1;
        i := i - 1;
      } else {
        KeepOne(was, now, tested, i, m, n, remove);
      }
      tested := tested + [x];
      i := i + 1;
    }
    assert was[..n] == tested;
  }
}
