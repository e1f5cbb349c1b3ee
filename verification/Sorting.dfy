/**
  sort.Slice as the list pipeline uses it. The comparison is only asked about elements at distinct
  positions, so it need not be irreflexive: the ascending order of the pipeline is not.
 */
module Sorting {
  import opened Common

  ghost predicate NoDup<T(!new)>(s: seq<T>) {
    forall i, j | 0 <= i < j < |s| :: s[i] != s[j]
  }

  /** `less` decides every pair of different elements one way and does so transitively. */
  ghost predicate Orders<T(!new)>(less: (T, T) -> bool, s: seq<T>) {
    && (forall x, y | x in s && y in s && x != y :: less(x, y) != less(y, x))
    && (forall x, y, z | x in s && y in s && z in s && x != y && y != z && x != z && less(x, y) && less(y, z) ::
          less(x, z))
  }

  ghost predicate Sorted<T(!new)>(less: (T, T) -> bool, s: seq<T>) {
    forall i, j | 0 <= i < j < |s| :: less(s[i], s[j])
  }

  ghost predicate Permutes<T>(s: seq<T>, t: seq<T>) {
    multiset(s) == multiset(t)
  }

  lemma PermutesIn<T>(s: seq<T>, t: seq<T>, x: T)
    requires Permutes(s, t) && x in s
    ensures x in t
  {
    assert x in multiset(s);
  }

  lemma NoDupCount<T(!new)>(s: seq<T>)
    ensures NoDup(s) <==> forall x | x in s :: multiset(s)[x] == 1
  {
    if s != [] {
      NoDupCount(s[1..]);
      assert s == [s[0]] + s[1..];
      assert multiset(s) == multiset{s[0]} + multiset(s[1..]);
      if NoDup(s) {
        assert s[0] !in s[1..];
      }
      if forall x | x in s :: multiset(s)[x] == 1 {
        assert multiset(s)[s[0]] == 1;
        assert s[0] !in s[1..];
        forall x | x in s[1..] ensures multiset(s[1..])[x] == 1 {
          assert x in s;
        }
      }
    }
  }

  lemma PermutesNoDup<T(!new)>(s: seq<T>, t: seq<T>)
    requires Permutes(s, t) && NoDup(s)
    ensures NoDup(t)
  {
    NoDupCount(s);
    NoDupCount(t);
    forall x | x in t ensures multiset(t)[x] == 1 {
      PermutesIn(t, s, x);
    }
  }

  lemma PermutesOrders<T(!new)>(less: (T, T) -> bool, s: seq<T>, t: seq<T>)
    requires Permutes(s, t) && Orders(less, s)
    ensures Orders(less, t)
  {
    forall x | x in t ensures x in s {
      PermutesIn(t, s, x);
    }
  }

  lemma SameHead<T(!new)>(less: (T, T) -> bool, s: seq<T>, t: seq<T>)
    requires Permutes(s, t) && Sorted(less, s) && Sorted(less, t) && Orders(less, s) && s != []
    ensures t != [] && t[0] == s[0]
  {
    PermutesIn(s, t, s[0]);
    if t[0] != s[0] {
      PermutesIn(t, s, t[0]);
      assert false;
    }
  }

  lemma PermutesTail<T>(s: seq<T>, t: seq<T>)
    requires Permutes(s, t) && s != [] && t != [] && t[0] == s[0]
    ensures Permutes(s[1..], t[1..])
  {
    assert s == [s[0]] + s[1..] && t == [t[0]] + t[1..];
    assert multiset(s[1..]) == multiset(s) - multiset{s[0]};
    assert multiset(t[1..]) == multiset(t) - multiset{t[0]};
  }

  /** There is only one way to sort: the result depends on nothing but the multiset of elements. */
  lemma {:induction false} SortedUnique<T(!new)>(less: (T, T) -> bool, s: seq<T>, t: seq<T>)
    requires Permutes(s, t) && Sorted(less, s) && Sorted(less, t) && Orders(less, s)
    ensures s == t
  {
    assert |s| == |multiset(s)| == |multiset(t)| == |t|;
    if s != [] {
      SameHead(less, s, t);
      PermutesTail(s, t);
      SortedUnique(less, s[1..], t[1..]);
      assert s == [s[0]] + s[1..] && t == [t[0]] + t[1..];
    }
  }

  lemma OrdersPart<T(!new)>(less: (T, T) -> bool, s: seq<T>, t: seq<T>)
    requires Orders(less, s) && forall x | x in t :: x in s
    ensures Orders(less, t)
  {
  }

  lemma {:induction false} InsertSorted<T(!new)>(less: (T, T) -> bool, x: T, t: seq<T>) returns (u: seq<T>)
    requires x !in t && NoDup(t) && Orders(less, [x] + t) && Sorted(less, t)
    ensures Permutes(u, [x] + t) && Sorted(less, u)
  {
    hide Orders;
    if t == [] {
      return [x];
    }
    var whole := [x] + t;
    assert whole[0] == x && whole[1] == t[0] && t == [t[0]] + t[1..];
    if less(x, t[0]) {
      FirstLess(less, x, t);
      return whole;
    }
    OrdersPart(less, whole, [x] + t[1..]);
    var v := InsertSorted(less, x, t[1..]);
    assert less(t[0], x) by {
      DecidedPair(less, whole, x, t[0]);
    }
    forall i | 0 <= i < |v| ensures less(t[0], v[i]) {
      PermutesIn(v, [x] + t[1..], v[i]);
    }
    u := [t[0]] + v;
  }

  lemma DecidedPair<T(!new)>(less: (T, T) -> bool, s: seq<T>, x: T, y: T)
    requires Orders(less, s) && x in s && y in s && x != y
    ensures less(x, y) != less(y, x)
  {
  }

  lemma FirstLess<T(!new)>(less: (T, T) -> bool, x: T, t: seq<T>)
    requires t != [] && x !in t && NoDup(t) && Orders(less, [x] + t) && Sorted(less, t) && less(x, t[0])
    ensures Sorted(less, [x] + t)
  {
    var whole := [x] + t;
    assert whole[0] == x && forall i | 0 <= i < |t| :: whole[i + 1] == t[i];
    forall j | 1 <= j < |t| ensures less(x, t[j]) {
      assert t[0] in whole && t[j] in whole && t[0] != t[j];
    }
  }

  /** Elements that are decided can be sorted. */
  lemma {:induction false} SortExists<T(!new)>(less: (T, T) -> bool, s: seq<T>) returns (t: seq<T>)
    requires NoDup(s) && Orders(less, s)
    ensures Permutes(t, s) && Sorted(less, t)
  {
    if s == [] {
      return [];
    }
    assert s == [s[0]] + s[1..];
    OrdersPart(less, s, s[1..]);
    var rest := SortExists(less, s[1..]);
    assert Permutes([s[0]] + rest, s);
    PermutesOrders(less, s, [s[0]] + rest);
    PermutesNoDup(s[1..], rest);
    if s[0] in rest {
      PermutesIn(rest, s[1..], s[0]);
      assert false;
    }
    t := InsertSorted(less, s[0], rest);
  }

  /** Sorting by the negated comparison reverses the result. */
  lemma SortedReversed<T(!new)>(less: (T, T) -> bool, s: seq<T>, t: seq<T>)
    requires Permutes(s, t) && NoDup(s) && Orders(less, s)
    requires Sorted(less, s) && Sorted((x: T, y: T) => !less(x, y), t)
    ensures t == Reversed(s)
  {
    var r := Reversed(t);
    ReversedIndex(t);
    ReversedPermutes(t);
    forall i, j | 0 <= i < j < |r| ensures less(r[i], r[j]) {
      var x, y := t[|t| - 1 - i], t[|t| - 1 - j];
      PermutesNoDup(s, t);
      PermutesIn(t, s, x);
      PermutesIn(t, s, y);
      assert !less(y, x);
    }
    SortedUnique(less, s, r);
    ReversedTwice(t);
  }

  lemma ReversedIndex<T>(s: seq<T>)
    ensures forall i | 0 <= i < |s| :: Reversed(s)[i] == s[|s| - 1 - i]
  {
    if s != [] {
      ReversedIndex(s[1..]);
    }
  }

  lemma ReversedPermutes<T>(s: seq<T>)
    ensures Permutes(Reversed(s), s)
  {
    if s != [] {
      ReversedPermutes(s[1..]);
      assert s == [s[0]] + s[1..];
    }
  }

  /** All pairs of the first `n` elements except those with `j` on the right are in order. */
  ghost predicate SortedBut<T(!new)>(less: (T, T) -> bool, s: seq<T>, n: nat, j: nat)
    requires n <= |s|
  {
    forall p, q | 0 <= p < q < n && q != j :: less(s[p], s[q])
  }

  lemma StartHere<T(!new)>(less: (T, T) -> bool, s: seq<T>, i: nat)
    requires i < |s| && Sorted(less, s[..i])
    ensures SortedBut(less, s, i + 1, i)
  {
    assert forall p | 0 <= p < i :: s[..i][p] == s[p];
  }

  lemma SwapPermutes<T>(s: seq<T>, t: seq<T>, j: nat)
    requires 0 < j < |s| && t == s[j := s[j - 1]][j - 1 := s[j]]
    ensures Permutes(t, s)
  {
  }

  lemma SwapStep<T(!new)>(less: (T, T) -> bool, s: seq<T>, t: seq<T>, n: nat, j: nat)
    requires 0 < j < n <= |s| && t == s[j := s[j - 1]][j - 1 := s[j]]
    requires SortedBut(less, s, n, j) && less(s[j], s[j - 1])
    ensures SortedBut(less, t, n, j - 1)
  {
    forall p, q | 0 <= p < q < n && q != j - 1 ensures less(t[p], t[q]) {
      if q == j {
        assert p == j - 1 || less(s[p], s[j - 1]);
      } else if p == j - 1 {
        assert less(s[j], s[q]);
      } else if p == j {
        assert less(s[j - 1], s[q]);
      } else {
        assert less(s[p], s[q]);
      }
    }
  }

  lemma StopHere<T(!new)>(less: (T, T) -> bool, s: seq<T>, n: nat, j: nat)
    requires j < n <= |s| && NoDup(s) && Orders(less, s) && SortedBut(less, s, n, j)
    requires j == 0 || !less(s[j], s[j - 1])
    ensures Sorted(less, s[..n])
  {
    forall p, q | 0 <= p < q < n ensures less(s[p], s[q]) {
      if q == j {
        assert less(s[j - 1], s[j]);
        if p < j - 1 {
          assert less(s[p], s[j - 1]);
        }
      }
    }
  }

  /** Carry element `i` down to its place among the sorted elements before it. */
  method Sink<T(!new)>(a: array<T>, i: nat, less: (T, T) -> bool, ghost ok: bool)
    requires i < a.Length
    requires ok ==> NoDup(a[..]) && Orders(less, a[..]) && Sorted(less, a[..i])
    modifies a
    ensures Permutes(a[..], old(a[..]))
    ensures ok ==> Sorted(less, a[..i + 1])
  {
    hide NoDup, Orders, Sorted, SortedBut;
    ghost var init := a[..];
    var j := i;
    if ok {
      StartHere(less, a[..], i);
    }
    while j > 0 && less(a[j], a[j - 1])
      invariant 0 <= j <= i
      invariant Permutes(a[..], init)
      invariant ok ==> SortedBut(less, a[..], i + 1, j)
    {
      ghost var s := a[..];
      a[j], a[j - 1] := a[j - 1], a[j];
      assert a[..] == s[j := s[j - 1]][j - 1 := s[j]];
      SwapPermutes(s, a[..], j);
      if ok {
        SwapStep(less, s, a[..], i + 1, j);
      }
      j := j - 1;
    }
    if ok {
      PermutesNoDup(init, a[..]);
      PermutesOrders(less, init, a[..]);
      StopHere(less, a[..], i + 1, j);
      assert a[..][..i + 1] == a[..i + 1];
    }
  }

  /** An in-place insertion sort, one of the sorts sort.Slice may run; callers only see the contract. */
  method SortSlice<T(!new)>(a: array<T>, less: (T, T) -> bool)
    modifies a
    ensures Permutes(a[..], old(a[..]))
    ensures NoDup(old(a[..])) && Orders(less, old(a[..])) ==> Sorted(less, a[..])
  {
    ghost var ok := NoDup(a[..]) && Orders(less, a[..]);
    ghost var init := a[..];
    for i := 0 to a.Length
      invariant Permutes(a[..], init)
      invariant ok ==> Sorted(less, a[..i])
    {
      if ok {
        PermutesNoDup(init, a[..]);
        PermutesOrders(less, init, a[..]);
      }
      Sink(a, i, less, ok);
    }
    assert a[..a.Length] == a[..];
  }
}
