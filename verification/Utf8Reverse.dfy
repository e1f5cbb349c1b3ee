/**
  Reverse of pkg/utils/stringutils/string.go: a byte buffer filled from the back with the code
  points of a UTF-8 string. UTF-8 is defined in section 3 of RFC 3629, its byte grammar in section 4.
 */
module Utf8Reverse {
  import opened Common

  type Byte = b: int | 0 <= b < 256

  type Bytes = seq<Byte>

  /** A Unicode scalar value: section 3 excludes the surrogates. */
  predicate Scalar(c: int) {
    0 <= c < 0xD800 || 0xE000 <= c < 0x110000
  }

  const RUNE_ERROR := 0xFFFD

  /** The encoding table of section 3. */
  function Encode(c: int): (s: Bytes)
    requires Scalar(c)
    ensures 1 <= |s| <= 4
  {
    if c < 0x80 then [c]
    else if c < 0x800 then [0xC0 + c / 64, 0x80 + c % 64]
    else if c < 0x10000 then [0xE0 + c / 4096, 0x80 + c / 64 % 64, 0x80 + c % 64]
    else [0xF0 + c / 262144, 0x80 + c / 4096 % 64, 0x80 + c / 64 % 64, 0x80 + c % 64]
  }

  predicate Tail(b: Byte) {
    0x80 <= b <= 0xBF
  }

  /** The length of the character `s` starts with, by the grammar of section 4; 0 when there is none. */
  function HeadLen(s: Bytes): (n: nat)
    ensures n <= |s| && n <= 4
  {
    if |s| == 0 then 0
    else if s[0] <= 0x7F then 1
    else if |s| >= 2 && 0xC2 <= s[0] <= 0xDF && Tail(s[1]) then 2
    else if |s| >= 3 && Tail(s[2])
         && (|| (s[0] == 0xE0 && 0xA0 <= s[1] <= 0xBF)
             || (0xE1 <= s[0] <= 0xEC && Tail(s[1]))
             || (s[0] == 0xED && 0x80 <= s[1] <= 0x9F)
             || (0xEE <= s[0] <= 0xEF && Tail(s[1]))) then 3
    else if |s| >= 4 && Tail(s[2]) && Tail(s[3])
         && (|| (s[0] == 0xF0 && 0x90 <= s[1] <= 0xBF)
             || (0xF1 <= s[0] <= 0xF3 && Tail(s[1]))
             || (s[0] == 0xF4 && 0x80 <= s[1] <= 0x8F)) then 4
    else 0
  }

  /** utf8.DecodeRuneInString on a non-empty string: bytes that fit no character give U+FFFD and width 1. */
  function DecodeRune(s: Bytes): (int, nat)
    requires s != []
  {
    var n := HeadLen(s);
    if n == 0 then (RUNE_ERROR, 1)
    else if n == 1 then (s[0], 1)
    else if n == 2 then (Value(s[0] - 0xC0, [s[1]]), 2)
    else if n == 3 then (Value(s[0] - 0xE0, [s[1], s[2]]), 3)
    else (Value(s[0] - 0xF0, [s[1], s[2], s[3]]), 4)
  }

  /** Lead bits followed by six bits from each continuation byte. */
  function Value(lead: int, tails: seq<Byte>): int {
    if tails == [] then lead
    else
      var last: int := tails[|tails| - 1];
      Value(lead, tails[..|tails| - 1]) * 64 + (last - 0x80)
  }

  lemma Values(lead: int, x: Byte, y: Byte, z: Byte)
    ensures Value(lead, [x]) == lead * 64 + (x - 0x80)
    ensures Value(lead, [x, y]) == lead * 4096 + (x - 0x80) * 64 + (y - 0x80)
    ensures Value(lead, [x, y, z]) == lead * 262144 + (x - 0x80) * 4096 + (y - 0x80) * 64 + (z - 0x80)
  {
    assert [x][..0] == [] && [x, y][..1] == [x] && [x, y, z][..2] == [x, y];
  }

  lemma Digits(a: int, x: int, y: int, z: int)
    requires 0 <= x < 64 && 0 <= y < 64 && 0 <= z < 64 && 0 <= a
    ensures var c := a * 64 + z; c / 64 == a && c % 64 == z
    ensures var c := a * 4096 + y * 64 + z; c / 4096 == a && c / 64 % 64 == y && c % 64 == z
    ensures var c := a * 262144 + x * 4096 + y * 64 + z;
            c / 262144 == a && c / 4096 % 64 == x && c / 64 % 64 == y && c % 64 == z
  {
    assert (a * 4096 + y * 64 + z) / 64 == a * 64 + y;
    var c := a * 262144 + x * 4096 + y * 64 + z;
    assert c / 64 == a * 4096 + x * 64 + y;
    assert c / 4096 == a * 64 + x;
  }

  lemma TwoBytes(s: Bytes)
    requires HeadLen(s) == 2
    ensures Scalar(DecodeRune(s).0) && Encode(DecodeRune(s).0) == s[..2]
  {
    Values(s[0] - 0xC0, s[1], 0, 0);
    Digits(s[0] - 0xC0, 0, 0, s[1] - 0x80);
  }

  lemma ThreeBytes(s: Bytes)
    requires HeadLen(s) == 3
    ensures Scalar(DecodeRune(s).0) && Encode(DecodeRune(s).0) == s[..3]
  {
    Values(s[0] - 0xE0, s[1], s[2], 0);
    Digits(s[0] - 0xE0, 0, s[1] - 0x80, s[2] - 0x80);
  }

  lemma FourBytes(s: Bytes)
    requires HeadLen(s) == 4
    ensures Scalar(DecodeRune(s).0) && Encode(DecodeRune(s).0) == s[..4]
  {
    Values(s[0] - 0xF0, s[1], s[2], s[3]);
    Digits(s[0] - 0xF0, s[1] - 0x80, s[2] - 0x80, s[3] - 0x80);
  }

  /** What is decoded is a scalar value, and encodes to the bytes it was read from. */
  lemma EncodeDecoded(s: Bytes)
    requires s != []
    ensures Scalar(DecodeRune(s).0)
    ensures HeadLen(s) == 0 ==> DecodeRune(s) == (RUNE_ERROR, 1) && |Encode(RUNE_ERROR)| == 3
    ensures HeadLen(s) > 0 ==> DecodeRune(s).1 == HeadLen(s) && Encode(DecodeRune(s).0) == s[..HeadLen(s)]
  {
    hide Value;
    var n := HeadLen(s);
    if n == 2 {
      TwoBytes(s);
    } else if n == 3 {
      ThreeBytes(s);
    } else if n == 4 {
      FourBytes(s);
    }
  }

  lemma WideHead(c: int, rest: Bytes)
    requires 0x10000 <= c < 0x110000
    ensures HeadLen(Encode(c) + rest) == 4
  {
  }

  lemma WideEncoded(c: int, rest: Bytes)
    requires 0x10000 <= c < 0x110000
    ensures var s := Encode(c) + rest; HeadLen(s) == 4 && DecodeRune(s) == (c, 4)
  {
    hide HeadLen, Value;
    var s := Encode(c) + rest;
    WideHead(c, rest);
    FourDigits(c);
    Values(s[0] - 0xF0, s[1], s[2], s[3]);
  }

  lemma FourDigits(c: int)
    requires 0 <= c
    ensures c == c / 262144 * 262144 + c / 4096 % 64 * 4096 + c / 64 % 64 * 64 + c % 64
  {
    assert c / 64 / 64 == c / 4096 && c / 4096 / 64 == c / 262144;
  }

  lemma ThreeEncoded(c: int, rest: Bytes)
    requires Scalar(c) && 0x800 <= c < 0x10000
    ensures var s := Encode(c) + rest; HeadLen(s) == 3 && DecodeRune(s) == (c, 3)
  {
    var s := Encode(c) + rest;
    assert c == c / 4096 * 4096 + c / 64 % 64 * 64 + c % 64;
    Values(s[0] - 0xE0, s[1], s[2], 0);
  }

  lemma TwoEncoded(c: int, rest: Bytes)
    requires 0x80 <= c < 0x800
    ensures var s := Encode(c) + rest; HeadLen(s) == 2 && DecodeRune(s) == (c, 2)
  {
    var s := Encode(c) + rest;
    Values(s[0] - 0xC0, s[1], 0, 0);
  }

  /** An encoded scalar value is read back, whatever follows it. */
  lemma DecodeEncoded(c: int, rest: Bytes)
    requires Scalar(c)
    ensures var s := Encode(c) + rest; HeadLen(s) == |Encode(c)| && DecodeRune(s) == (c, |Encode(c)|)
  {
    if 0x10000 <= c {
      WideEncoded(c, rest);
    } else if 0x800 <= c {
      ThreeEncoded(c, rest);
    } else if 0x80 <= c {
      TwoEncoded(c, rest);
    }
  }

  // ----- Strings of characters

  predicate Valid(s: Bytes) {
    s == [] || (HeadLen(s) > 0 && Valid(s[HeadLen(s)..]))
  }

  function CodePoints(s: Bytes): seq<int>
    requires Valid(s)
  {
    if s == [] then [] else [DecodeRune(s).0] + CodePoints(s[HeadLen(s)..])
  }

  ghost predicate Scalars(cs: seq<int>) {
    forall i | 0 <= i < |cs| :: Scalar(cs[i])
  }

  ghost function EncodeAll(cs: seq<int>): Bytes
    requires Scalars(cs)
  {
    if cs == [] then [] else Encode(cs[0]) + EncodeAll(cs[1..])
  }

  lemma {:induction false} EncodeCodePoints(s: Bytes)
    requires Valid(s)
    ensures Scalars(CodePoints(s)) && EncodeAll(CodePoints(s)) == s
    decreases |s|
  {
    hide HeadLen, DecodeRune, Encode, Scalar;
    if s != [] {
      EncodeDecoded(s);
      EncodeCodePoints(s[HeadLen(s)..]);
      assert s == s[..HeadLen(s)] + s[HeadLen(s)..];
      assert CodePoints(s)[0] == DecodeRune(s).0 && CodePoints(s)[1..] == CodePoints(s[HeadLen(s)..]);
    }
  }

  lemma {:induction false} CodePointsEncoded(cs: seq<int>)
    requires Scalars(cs)
    ensures Valid(EncodeAll(cs)) && CodePoints(EncodeAll(cs)) == cs
  {
    if cs != [] {
      var rest := EncodeAll(cs[1..]);
      CodePointsEncoded(cs[1..]);
      DecodeEncoded(cs[0], rest);
      assert EncodeAll(cs)[|Encode(cs[0])|..] == rest;
    }
  }

  lemma {:induction false} EncodeAppend(cs: seq<int>, ds: seq<int>)
    requires Scalars(cs) && Scalars(ds)
    ensures Scalars(cs + ds) && EncodeAll(cs + ds) == EncodeAll(cs) + EncodeAll(ds)
  {
    hide Encode;
    if cs == [] {
      assert cs + ds == ds;
    } else {
      EncodeAppend(cs[1..], ds);
      assert (cs + ds)[1..] == cs[1..] + ds;
      var e, rest, t := Encode(cs[0]), EncodeAll(cs[1..]), EncodeAll(ds);
      assert e + (rest + t) == (e + rest) + t;
    }
  }

  lemma {:induction false} ScalarsReversed(cs: seq<int>)
    requires Scalars(cs)
    ensures Scalars(Reversed(cs))
    ensures |EncodeAll(Reversed(cs))| == |EncodeAll(cs)|
  {
    if cs != [] {
      ScalarsReversed(cs[1..]);
      EncodeAppend(Reversed(cs[1..]), [cs[0]]);
      assert [cs[0]][1..] == [];
    }
  }

  /** The reversed string. */
  ghost function ReversedString(s: Bytes): Bytes
    requires Valid(s)
  {
    EncodeCodePoints(s);
    ScalarsReversed(CodePoints(s));
    EncodeAll(Reversed(CodePoints(s)))
  }

  /** It is valid, has the same length, and its code points are those of `s` in reverse. */
  lemma ReversedStringFacts(s: Bytes)
    requires Valid(s)
    ensures var r := ReversedString(s);
            Valid(r) && |r| == |s| && CodePoints(r) == Reversed(CodePoints(s))
  {
    EncodeCodePoints(s);
    ScalarsReversed(CodePoints(s));
    CodePointsEncoded(Reversed(CodePoints(s)));
  }

  lemma ReversedStringTwice(s: Bytes)
    requires Valid(s)
    ensures Valid(ReversedString(s)) && ReversedString(ReversedString(s)) == s
  {
    ReversedStringFacts(s);
    ReversedTwice(CodePoints(s));
    EncodeCodePoints(s);
  }

  // ----- Reverse

  /** The first `start` bytes of `s` hold the characters `done`, and `tail` holds them in reverse. */
  ghost predicate Written(s: Bytes, start: nat, done: seq<int>, tail: Bytes)
    requires Valid(s)
  {
    && start <= |s| && Valid(s[start..]) && CodePoints(s) == done + CodePoints(s[start..])
    && Scalars(done) && Scalars(Reversed(done)) && tail == EncodeAll(Reversed(done))
  }

  lemma PrependReversed(done: seq<int>, c: int)
    requires Scalars(done) && Scalar(c)
    ensures Scalars(Reversed(done)) && Scalars(Reversed(done + [c]))
    ensures EncodeAll(Reversed(done + [c])) == Encode(c) + EncodeAll(Reversed(done))
  {
    hide Encode;
    ScalarsReversed(done);
    ScalarsReversed(done + [c]);
    ReversedAppend(done, [c]);
    assert Reversed([c]) == [c];
    assert Reversed(done + [c]) == [c] + Reversed(done);
    assert Reversed(done + [c])[1..] == Reversed(done);
  }

  lemma CodePointsStep(s: Bytes)
    requires Valid(s) && s != []
    ensures Valid(s[HeadLen(s)..]) && CodePoints(s) == [DecodeRune(s).0] + CodePoints(s[HeadLen(s)..])
  {
  }

  /** One more character in front of what has been written. */
  lemma Advance(s: Bytes, start: nat, done: seq<int>, tail: Bytes)
    requires Valid(s) && start < |s| && Written(s, start, done, tail)
    ensures var (c, n) := DecodeRune(s[start..]);
            && Scalar(c) && n == |Encode(c)| == HeadLen(s[start..])
            && Written(s, start + n, done + [c], Encode(c) + tail)
  {
    hide HeadLen, DecodeRune, Encode, EncodeAll, Reversed, Valid, CodePoints, Scalar, Scalars;
    var rest := s[start..];
    CodePointsStep(rest);
    EncodeDecoded(rest);
    ValidHead(rest);
    var (c, n) := DecodeRune(rest);
    PrependReversed(done, c);
    OneMoreScalar(done, c);
    assert rest[n..] == s[start + n..];
    Regroup(done, [c], CodePoints(rest[n..]));
  }

  lemma OneMoreScalar(cs: seq<int>, c: int)
    requires Scalars(cs) && Scalar(c)
    ensures Scalars(cs + [c])
  {
  }

  lemma Regroup<T>(s: seq<T>, t: seq<T>, u: seq<T>)
    ensures s + (t + u) == (s + t) + u
  {
  }

  lemma WrittenNothing(s: Bytes)
    requires Valid(s)
    ensures Written(s, 0, [], [])
  {
    assert s[0..] == s;
  }

  lemma WrittenAll(s: Bytes, done: seq<int>, tail: Bytes)
    requires Valid(s) && Written(s, |s|, done, tail)
    ensures tail == ReversedString(s)
  {
    assert s[|s|..] == [];
    assert CodePoints(s) == done;
  }

  lemma ValidHead(s: Bytes)
    requires Valid(s) && s != []
    ensures HeadLen(s) > 0
  {
  }

  /** Bytes that fit no character stand at offset 0, or at offset 1 after a one-byte character. */
  predicate BrokenEarly(s: Bytes) {
    s != [] && (HeadLen(s) == 0 || (HeadLen(s) == 1 && |s| > 1 && HeadLen(s[1..]) == 0))
  }

  /** utf8.EncodeRune into a buffer. `writes` counts the stores per index. */
  method EncodeRune(buf: array<Byte>, off: nat, c: int) returns (n: nat, ghost writes: multiset<int>)
    requires Scalar(c) && off + |Encode(c)| <= buf.Length
    modifies buf
    ensures n == |Encode(c)|
    ensures buf[..] == old(buf[..off]) + Encode(c) + old(buf[off + n..])
    ensures forall i: int :: writes[i] == if off <= i < off + n then 1 else 0
  {
    hide Encode;
    var bytes := Encode(c);
    n := |bytes|;
    writes := multiset{};
    for k := 0 to n
      invariant forall i | 0 <= i < off || off + n <= i < buf.Length :: buf[i] == old(buf[i])
      invariant forall i | 0 <= i < k :: buf[off + i] == bytes[i]
      invariant forall i: int :: writes[i] == if off <= i < off + k then 1 else 0
    {
      buf[off + k] := bytes[k];
      writes := writes + multiset{off + k};
    }
    assert buf[off..off + n] == bytes;
    assert buf[..] == buf[..off] + buf[off..off + n] + buf[off + n..];
  }

  /**
    Reverse; None is an index out of range inside EncodeRune. Valid strings are reversed with one
    store per byte of the buffer. The only strings that panic are those broken near the start.
   */
  method Reverse(s: Bytes) returns (r: Option<Bytes>, ghost writes: multiset<int>)
    ensures Valid(s) ==> r == Some(ReversedString(s))
    ensures Valid(s) ==> forall i: int :: writes[i] == if 0 <= i < |s| then 1 else 0
    ensures r.None? <==> BrokenEarly(s)
    ensures r.Some? ==> |r.value| == |s|
  {
    hide HeadLen, DecodeRune, Encode, EncodeAll, CodePoints, Reversed, Written, Valid;
    var size := |s|;
    var buf := new Byte[size](_ => 0);
    var start := 0;
    ghost var done: seq<int> := [];
    writes := multiset{};
    if Valid(s) {
      WrittenNothing(s);
      assert buf[size - start..] == [];
    }
    while start < size
      invariant 0 <= start <= size
      invariant Valid(s) ==> Written(s, start, done, buf[size - start..])
      invariant Valid(s) ==> forall i: int :: writes[i] == if size - start <= i < size then 1 else 0
      invariant start > 0 ==> HeadLen(s) > 0
      invariant start == 1 ==> HeadLen(s) == 1
      invariant start > 1 ==> !BrokenEarly(s)
    {
      var (c, n) := DecodeRune(s[start..]);
      EncodeDecoded(s[start..]);
      ghost var suffix := buf[size - start..];
      if Valid(s) {
        Advance(s, start, done, suffix);
      }
      start := start + n;
      if |Encode(c)| > start {
        return None, writes;
      }
      var off := size - start;
      ghost var stores;
      n, stores := EncodeRune(buf, off, c);
      writes := writes + stores;
      if Valid(s) {
        done := done + [c];
        assert buf[off..] == Encode(c) + suffix;
      }
    }
    assert buf[size - start..] == buf[..];
    if Valid(s) {
      WrittenAll(s, done, buf[..]);
    }
    r := Some(buf[..]);
  }
}
