/** Small shared datatypes and sequence facts. */
module Common {

  datatype Option<+T> = None | Some(value: T)

  /** The first `k` elements, or all of them when there are fewer; nothing when `k` is negative. */
  function Take<T>(s: seq<T>, k: int): seq<T> {
    if k <= 0 then [] else if |s| <= k then s else s[..k]
  }

  /** Reading a concatenation through a cap: the second part only gets the room the first leaves. */
  lemma TakeAppend<T>(s: seq<T>, t: seq<T>, k: int)
    ensures Take(s + t, k) == if |s| >= k then Take(s, k) else s + Take(t, k - |s|)
  {
  }

  function Reversed<T>(s: seq<T>): (r: seq<T>)
    ensures |r| == |s|
  {
    if s == [] then [] else Reversed(s[1..]) + [s[0]]
  }

  lemma {:induction false} ReversedAppend<T>(s: seq<T>, t: seq<T>)
    ensures Reversed(s + t) == Reversed(t) + Reversed(s)
  {
    if s == [] {
      assert s + t == t;
    } else {
      ReversedAppend(s[1..], t);
      assert (s + t)[1..] == s[1..] + t;
    }
  }

  lemma {:induction false} ReversedTwice<T>(s: seq<T>)
    ensures Reversed(Reversed(s)) == s
  {
    if s != [] {
      ReversedTwice(s[1..]);
      ReversedAppend(Reversed(s[1..]), [s[0]]);
    }
  }
}
