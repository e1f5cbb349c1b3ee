/** The parts of Go's strings package the modelled code uses, on sequences of code points. */
module Text {
  /** strings.Split for a separator of one character. */
  function Split(s: string, sep: char): (parts: seq<string>)
    ensures |parts| >= 1
  {
    if s == [] then [[]]
    else
      var rest := Split(s[1..], sep);
      if s[0] == sep then [[]] + rest else [[s[0]] + rest[0]] + rest[1..]
  }

  /** strings.Join for a separator of one character. */
  function Join(parts: seq<string>, sep: char): string {
    if parts == [] then []
    else if |parts| == 1 then parts[0]
    else parts[0] + [sep] + Join(parts[1..], sep)
  }

  ghost predicate Free(s: string, c: char) {
    c !in s
  }

  ghost predicate AllFree(parts: seq<string>, c: char) {
    forall i | 0 <= i < |parts| :: Free(parts[i], c)
  }

  lemma {:induction false} SplitFree(s: string, sep: char)
    requires Free(s, sep)
    ensures Split(s, sep) == [s]
  {
    if s != [] {
      SplitFree(s[1..], sep);
      assert s == [s[0]] + s[1..];
    }
  }

  /** Splitting at the first separator. */
  lemma {:induction false} SplitFirst(s: string, sep: char, t: string)
    requires Free(s, sep)
    ensures Split(s + [sep] + t, sep) == [s] + Split(t, sep)
  {
    var whole := s + [sep] + t;
    if s == [] {
      assert whole[1..] == t;
    } else {
      SplitFirst(s[1..], sep, t);
      assert whole[1..] == s[1..] + [sep] + t;
      assert s == [s[0]] + s[1..];
    }
  }

  lemma {:induction false} SplitJoin(parts: seq<string>, sep: char)
    requires parts != [] && AllFree(parts, sep)
    ensures Split(Join(parts, sep), sep) == parts
  {
    if |parts| == 1 {
      SplitFree(parts[0], sep);
    } else {
      SplitJoin(parts[1..], sep);
      SplitFirst(parts[0], sep, Join(parts[1..], sep));
    }
  }

  /** strings.Index for one character: the first position, or -1. */
  function IndexOf(s: string, c: char): (i: int)
    ensures i == -1 <==> Free(s, c)
    ensures i != -1 ==> 0 <= i < |s| && s[i] == c && Free(s[..i], c)
  {
    if s == [] then -1
    else if s[0] == c then 0
    else
      var j := IndexOf(s[1..], c);
      assert j >= 0 ==> s[..j + 1] == [s[0]] + s[1..][..j];
      if j < 0 then -1 else j + 1
  }

  /** unicode.IsSpace. */
  predicate IsSpace(c: char) {
    || '\t' <= c <= '\r'
    || c in " \U{0085}\U{00A0}\U{1680}\U{2028}\U{2029}\U{202F}\U{205F}\U{3000}"
    || '\U{2000}' <= c <= '\U{200A}'
  }

  /** The same by code points. */
  lemma SpaceTable(c: char)
    ensures var n := c as int;
            IsSpace(c) <==>
              || 9 <= n <= 13 || 8192 <= n <= 8202
              || n in {32, 133, 160, 5760, 8232, 8233, 8239, 8287, 12288}
  {
  }

  function TrimLeft(s: string, cut: char -> bool): string {
    if s != [] && cut(s[0]) then TrimLeft(s[1..], cut) else s
  }

  function TrimRight(s: string, cut: char -> bool): string {
    if s != [] && cut(s[|s| - 1]) then TrimRight(s[..|s| - 1], cut) else s
  }

  function Trim(s: string, cut: char -> bool): string {
    TrimRight(TrimLeft(s, cut), cut)
  }

  ghost predicate AllCut(s: string, cut: char -> bool) {
    forall i | 0 <= i < |s| :: cut(s[i])
  }

  /** Neither end is cut away. */
  ghost predicate Trimmed(s: string, cut: char -> bool) {
    s != [] ==> !cut(s[0]) && !cut(s[|s| - 1])
  }

  lemma {:induction false} TrimLeftPad(pad: string, s: string, cut: char -> bool)
    requires AllCut(pad, cut) && s != [] && !cut(s[0])
    ensures TrimLeft(pad + s, cut) == s
  {
    if pad == [] {
      assert pad + s == s;
    } else {
      TrimLeftPad(pad[1..], s, cut);
      assert (pad + s)[1..] == pad[1..] + s;
    }
  }

  lemma {:induction false} TrimRightPad(s: string, pad: string, cut: char -> bool)
    requires AllCut(pad, cut) && (s != [] ==> !cut(s[|s| - 1]))
    ensures TrimRight(s + pad, cut) == s
  {
    if pad == [] {
      assert s + pad == s;
    } else {
      TrimRightPad(s, pad[..|pad| - 1], cut);
      assert (s + pad)[..|s + pad| - 1] == s + pad[..|pad| - 1];
    }
  }

  lemma {:induction false} TrimAll(s: string, cut: char -> bool)
    requires AllCut(s, cut)
    ensures TrimLeft(s, cut) == []
  {
    if s != [] {
      TrimAll(s[1..], cut);
    }
  }

  /** Padding around a trimmed text is removed, and nothing else. */
  lemma TrimPadded(left: string, s: string, right: string, cut: char -> bool)
    requires AllCut(left, cut) && AllCut(right, cut) && Trimmed(s, cut)
    ensures Trim(left + s + right, cut) == s
  {
    if s == [] {
      TrimAll(left + s + right, cut);
    } else {
      assert left + s + right == left + (s + right);
      TrimLeftPad(left, s + right, cut);
      TrimRightPad(s, right, cut);
    }
  }

  function HasPrefix(s: string, p: string): bool {
    p <= s
  }

  /** strings.Contains. */
  predicate Contains(s: string, t: string) {
    t <= s || (s != [] && Contains(s[1..], t))
  }

  ghost predicate MatchAt(s: string, t: string, i: nat) {
    i + |t| <= |s| && s[i..i + |t|] == t
  }

  lemma {:induction false} ContainsMeaning(s: string, t: string)
    ensures Contains(s, t) <==> exists i: nat :: MatchAt(s, t, i)
  {
    if t <= s {
      assert MatchAt(s, t, 0);
    } else if s != [] {
      ContainsMeaning(s[1..], t);
      forall i: nat | MatchAt(s[1..], t, i) ensures MatchAt(s, t, i + 1) {
      }
      forall i: nat | MatchAt(s, t, i) ensures i > 0 && MatchAt(s[1..], t, i - 1) {
        assert s[1..][i - 1..i - 1 + |t|] == s[i..i + |t|];
      }
    }
  }

  // ----- strings.Compare: bytewise order of UTF-8, which is the order of code points

  predicate Less(s: string, t: string) {
    t != [] && (s == [] || s[0] < t[0] || (s[0] == t[0] && Less(s[1..], t[1..])))
  }

  lemma {:induction false} LessTotal(s: string, t: string)
    ensures Less(s, t) || Less(t, s) || s == t
    ensures !(Less(s, t) && Less(t, s)) && !Less(s, s)
  {
    if s != [] && t != [] && s[0] == t[0] {
      LessTotal(s[1..], t[1..]);
    } else if s != [] {
      LessTotal(s[1..], s[1..]);
    }
  }

  lemma {:induction false} LessTransitive(s: string, t: string, u: string)
    requires Less(s, t) && Less(t, u)
    ensures Less(s, u)
  {
    if s != [] && s[0] == t[0] == u[0] {
      LessTransitive(s[1..], t[1..], u[1..]);
    }
  }

  /** `i` is the first place where the two texts differ, and `s` has the smaller character there. */
  ghost predicate SmallerAt(s: string, t: string, i: nat) {
    i < |s| && i < |t| && s[..i] == t[..i] && s[i] < t[i]
  }

  /** Dictionary order, said without recursion. */
  ghost predicate Precedes(s: string, t: string) {
    s < t || exists i: nat :: SmallerAt(s, t, i)
  }

  lemma {:induction false} LessMeaning(s: string, t: string)
    ensures Less(s, t) <==> Precedes(s, t)
  {
    if s != [] && t != [] {
      if s[0] < t[0] {
        assert SmallerAt(s, t, 0);
      } else if s[0] == t[0] {
        LessMeaning(s[1..], t[1..]);
        SameFirst(s, t);
      } else {
        assert forall i: nat | SmallerAt(s, t, i) :: i > 0 && s[..i][0] == s[0] && t[..i][0] == t[0];
      }
    }
  }

  lemma SameFirst(s: string, t: string)
    requires s != [] && t != [] && s[0] == t[0]
    ensures Precedes(s, t) <==> Precedes(s[1..], t[1..])
  {
    assert s == [s[0]] + s[1..] && t == [t[0]] + t[1..];
    assert s < t <==> s[1..] < t[1..];
    forall i: nat | SmallerAt(s[1..], t[1..], i) ensures SmallerAt(s, t, i + 1) {
      assert s[..i + 1] == [s[0]] + s[1..][..i] && t[..i + 1] == [t[0]] + t[1..][..i];
    }
    forall i: nat | SmallerAt(s, t, i) ensures i > 0 && SmallerAt(s[1..], t[1..], i - 1) {
      assert s[1..][..i - 1] == s[..i][1..] && t[1..][..i - 1] == t[..i][1..];
    }
  }
}
