/** parseConditions of pkg/server/params/params.go: "key1=value1,key2~value2,...". */
module ConditionsParser {
  import opened Common
  import opened Text

  datatype Conditions = Conditions(exact: map<string, string>, fuzzy: map<string, string>)

  const NONE := Conditions(map[], map[])

  datatype Condition = Condition(key: string, value: string, fuzzy: bool)

  /** The characters matched by the forbidden-key expression. */
  predicate Forbidden(c: char) {
    c in "\t\n\U{000C}\r (){}[]"
  }

  /** The same by code points: white space except the vertical tab, and brackets of three kinds. */
  lemma ForbiddenTable(c: char)
    ensures Forbidden(c) <==> c as int in {9, 10, 12, 13, 32, 40, 41, 91, 93, 123, 125}
  {
  }

  predicate InvalidKey(key: string) {
    exists i :: 0 <= i < |key| && Forbidden(key[i])
  }

  predicate Separator(c: char) {
    c == '~' || c == '='
  }

  /** strings.IndexAny for the two separators. */
  function IndexSeparator(s: string): (i: int)
    ensures -1 <= i < |s|
    ensures i == -1 <==> forall j | 0 <= j < |s| :: !Separator(s[j])
    ensures i != -1 ==> Separator(s[i]) && forall j | 0 <= j < i :: !Separator(s[j])
  {
    if s == [] then -1
    else if Separator(s[0]) then 0
    else
      var j := IndexSeparator(s[1..]);
      assert forall k | 1 <= k < |s| :: s[k] == s[1..][k - 1];
      if j < 0 then -1 else j + 1
  }

  function ReadSegment(seg: string): Condition {
    var i := IndexSeparator(seg);
    if i < 0 then Condition(seg, "", false) else Condition(seg[..i], seg[i + 1..], seg[i] == '~')
  }

  function Put(c: Conditions, x: Condition): Conditions {
    if x.fuzzy then c.(fuzzy := c.fuzzy[x.key := x.value]) else c.(exact := c.exact[x.key := x.value])
  }

  /** Reading segments from left to right, on top of `c`; None is the error. */
  function ReadAll(segs: seq<string>, c: Conditions): Option<Conditions> {
    if segs == [] then Some(c)
    else if segs[0] == "" then ReadAll(segs[1..], c)
    else
      var x := ReadSegment(segs[0]);
      if InvalidKey(x.key) then None else ReadAll(segs[1..], Put(c, x))
  }

  function Parse(s: string): Option<Conditions> {
    ReadAll(Split(s, ','), NONE)
  }

  lemma NothingLeft(c: Conditions)
    ensures ReadAll(Split("", ','), c) == Some(c)
  {
    assert Split("", ',')[1..] == [];
  }

  /** What is in front of the first comma, and what is behind it. */
  function FirstSegment(s: string): string {
    var i := IndexOf(s, ',');
    if i >= 0 then s[..i] else s
  }

  function OtherSegments(s: string): string {
    var i := IndexOf(s, ',');
    if i >= 0 then s[i + 1..] else ""
  }

  /** Reading a text is reading its first segment and then the rest. */
  lemma ReadFirst(s: string, c: Conditions)
    ensures ReadAll(Split(s, ','), c)
         == if FirstSegment(s) == "" then ReadAll(Split(OtherSegments(s), ','), c)
            else if InvalidKey(ReadSegment(FirstSegment(s)).key) then None
            else ReadAll(Split(OtherSegments(s), ','), Put(c, ReadSegment(FirstSegment(s))))
  {
    hide ReadSegment, InvalidKey, Put;
    var i := IndexOf(s, ',');
    if i >= 0 {
      assert s == s[..i] + [','] + s[i + 1..];
      SplitFirst(s[..i], ',', s[i + 1..]);
    } else {
      SplitFree(s, ',');
      assert Split("", ',')[1..] == [];
    }
  }

  /** The key, the separator and the value of one segment. */
  method TakeApart(seg: string) returns (key: string, value: string, isFuzzy: bool)
    ensures Condition(key, value, isFuzzy) == ReadSegment(seg)
  {
    key, value, isFuzzy := seg, "", false;
    var i := IndexSeparator(key);
    if i >= 0 {
      if key[i] == '~' {
        isFuzzy := true;
      }
      key, value := key[..i], key[i + 1..];
    }
  }

  method ParseConditions(s: string) returns (r: Option<Conditions>)
    ensures r == Parse(s)
  {
    hide ReadAll, Split, InvalidKey, ReadSegment;
    var conditions := NONE;
    var conditionsStr := s;
    while conditionsStr != ""
      invariant ReadAll(Split(conditionsStr, ','), conditions) == Parse(s)
      decreases |conditionsStr|
    {
      ReadFirst(conditionsStr, conditions);
      ghost var before := conditionsStr;
      var key := conditionsStr;
      var i := IndexOf(key, ',');
      if i >= 0 {
        key, conditionsStr := key[..i], key[i + 1..];
      } else {
        conditionsStr := "";
      }
      assert key == FirstSegment(before) && conditionsStr == OtherSegments(before);
      if key == "" {
        continue;
      }
      var value, isFuzzy;
      key, value, isFuzzy := TakeApart(key);
      if InvalidKey(key) {
        return None;
      }
      if isFuzzy {
        conditions := conditions.(fuzzy := conditions.fuzzy[key := value]);
      } else {
        conditions := conditions.(exact := conditions.exact[key := value]);
      }
    }
    NothingLeft(conditions);
    return Some(conditions);
  }

  // ----- When it fails

  ghost predicate BadSegment(seg: string) {
    seg != "" && InvalidKey(ReadSegment(seg).key)
  }

  ghost predicate SomeBad(segs: seq<string>) {
    exists i :: 0 <= i < |segs| && BadSegment(segs[i])
  }

  lemma SomeBadCons(segs: seq<string>)
    requires segs != []
    ensures SomeBad(segs) <==> BadSegment(segs[0]) || SomeBad(segs[1..])
  {
    assert forall i | 1 <= i < |segs| :: segs[i] == segs[1..][i - 1];
    if SomeBad(segs[1..]) {
      var i :| 0 <= i < |segs[1..]| && BadSegment(segs[1..][i]);
      assert BadSegment(segs[i + 1]);
    }
  }

  lemma {:induction false} FailsIff(segs: seq<string>, c: Conditions)
    ensures ReadAll(segs, c).None? <==> SomeBad(segs)
    decreases segs
  {
    if segs != [] {
      SomeBadCons(segs);
      FailsIff(segs[1..], c);
      FailsIff(segs[1..], Put(c, ReadSegment(segs[0])));
    }
  }

  /** Parsing fails exactly when some non-empty segment has a forbidden character in its key. */
  lemma ParseFailsIff(s: string)
    ensures Parse(s).None? <==> SomeBad(Split(s, ','))
  {
    FailsIff(Split(s, ','), NONE);
  }

  // ----- Composition

  /** `d` on top of `c`. */
  function Override(c: Conditions, d: Conditions): Conditions {
    Conditions(c.exact + d.exact, c.fuzzy + d.fuzzy)
  }

  lemma PutOnTop(c: Conditions, d: Conditions, x: Condition)
    ensures Put(Override(c, d), x) == Override(c, Put(d, x))
  {
    if x.fuzzy {
      assert (c.fuzzy + d.fuzzy)[x.key := x.value] == c.fuzzy + d.fuzzy[x.key := x.value];
    } else {
      assert (c.exact + d.exact)[x.key := x.value] == c.exact + d.exact[x.key := x.value];
    }
  }

  lemma {:induction false} ReadOnTop(segs: seq<string>, c: Conditions, d: Conditions)
    ensures ReadAll(segs, Override(c, d))
         == match ReadAll(segs, d)
            case None => None
            case Some(e) => Some(Override(c, e))
  {
    hide ReadSegment, InvalidKey, Override, Put;
    if segs != [] {
      if segs[0] == "" {
        ReadOnTop(segs[1..], c, d);
      } else {
        var x := ReadSegment(segs[0]);
        PutOnTop(c, d, x);
        ReadOnTop(segs[1..], c, Put(d, x));
      }
    }
  }

  lemma {:induction false} ReadAppend(segs: seq<string>, more: seq<string>, c: Conditions)
    ensures ReadAll(segs + more, c)
         == match ReadAll(segs, c)
            case None => None
            case Some(d) => ReadAll(more, d)
  {
    if segs == [] {
      assert segs + more == more;
    } else {
      assert (segs + more)[1..] == segs[1..] + more;
      ReadAppend(segs[1..], more, c);
      ReadAppend(segs[1..], more, Put(c, ReadSegment(segs[0])));
    }
  }

  lemma {:induction false} SplitAppend(s: string, t: string)
    ensures Split(s + "," + t, ',') == Split(s, ',') + Split(t, ',')
  {
    hide Split;
    var i := IndexOf(s, ',');
    if i < 0 {
      SplitFree(s, ',');
      SplitFirst(s, ',', t);
    } else {
      var a, b := s[..i], s[i + 1..];
      assert s == a + [','] + b;
      SplitFirst(a, ',', b);
      SplitAppend(b, t);
      SplitFirst(a, ',', b + "," + t);
      assert s + "," + t == a + [','] + (b + "," + t);
    }
  }

  /** Parsing "s,t" is parsing both and letting the second override the first. */
  lemma ParseAppend(s: string, t: string)
    ensures Parse(s + "," + t)
         == if Parse(s).Some? && Parse(t).Some? then Some(Override(Parse(s).value, Parse(t).value)) else None
  {
    SplitAppend(s, t);
    ReadAppend(Split(s, ','), Split(t, ','), NONE);
    if Parse(s).Some? {
      var c := Parse(s).value;
      ReadOnTop(Split(t, ','), c, NONE);
      assert Override(c, NONE) == c;
    }
  }

  // ----- Round trip

  function Print(x: Condition): string {
    x.key + (if x.fuzzy then "~" else "=") + x.value
  }

  /** A text for a condition; an exact one with an empty value may also be written as its key alone. */
  ghost predicate Writes(text: string, x: Condition) {
    text == Print(x) || (!x.fuzzy && x.value == "" && x.key != "" && text == x.key)
  }

  ghost predicate WritesAll(texts: seq<string>, xs: seq<Condition>) {
    |texts| == |xs| && forall i | 0 <= i < |xs| :: Writes(texts[i], xs[i])
  }

  /** Keys free of separators, commas and forbidden characters; values free of commas. */
  ghost predicate Printable(x: Condition) {
    && (forall i | 0 <= i < |x.key| :: !Separator(x.key[i]) && x.key[i] != ',' && !Forbidden(x.key[i]))
    && Free(x.value, ',')
  }

  /** `xs` lists the entries of `c`, in any order. */
  ghost predicate ListedBy(c: Conditions, xs: seq<Condition>) {
    && (forall i | 0 <= i < |xs| :: xs[i].fuzzy ==> xs[i].key in c.fuzzy && c.fuzzy[xs[i].key] == xs[i].value)
    && (forall i | 0 <= i < |xs| :: !xs[i].fuzzy ==> xs[i].key in c.exact && c.exact[xs[i].key] == xs[i].value)
    && (forall k | k in c.fuzzy :: Condition(k, c.fuzzy[k], true) in xs)
    && (forall k | k in c.exact :: Condition(k, c.exact[k], false) in xs)
  }

  lemma ReadWritten(text: string, x: Condition)
    requires Printable(x) && Writes(text, x)
    ensures ReadSegment(text) == x && text != "" && !InvalidKey(x.key) && Free(text, ',')
  {
    var i := IndexSeparator(text);
    assert forall j | 0 <= j < |x.key| :: text[j] == x.key[j];
    if text == Print(x) {
      assert Separator(text[|x.key|]);
      assert i == |x.key|;
      assert text[..i] == x.key && text[i + 1..] == x.value;
    } else {
      assert i == -1;
    }
  }

  function PutAll(c: Conditions, xs: seq<Condition>): Conditions
    decreases xs
  {
    if xs == [] then c else PutAll(Put(c, xs[0]), xs[1..])
  }

  lemma {:induction false} ReadWrittenAll(texts: seq<string>, xs: seq<Condition>, c: Conditions)
    requires WritesAll(texts, xs) && forall i | 0 <= i < |xs| :: Printable(xs[i])
    ensures ReadAll(texts, c) == Some(PutAll(c, xs)) && AllFree(texts, ',')
    decreases |xs|
  {
    hide ReadSegment, InvalidKey, Put, Writes, Printable;
    if xs != [] {
      ReadWritten(texts[0], xs[0]);
      ReadWrittenAll(texts[1..], xs[1..], Put(c, xs[0]));
    }
  }

  /** Agreement with the listed maps so far; the rest fills in what is missing. */
  lemma {:induction false} PutListed(c: Conditions, d: Conditions, xs: seq<Condition>)
    requires forall i | 0 <= i < |xs| :: xs[i].fuzzy ==> xs[i].key in c.fuzzy && c.fuzzy[xs[i].key] == xs[i].value
    requires forall i | 0 <= i < |xs| :: !xs[i].fuzzy ==> xs[i].key in c.exact && c.exact[xs[i].key] == xs[i].value
    requires forall k | k in d.fuzzy :: k in c.fuzzy && d.fuzzy[k] == c.fuzzy[k]
    requires forall k | k in d.exact :: k in c.exact && d.exact[k] == c.exact[k]
    requires forall k | k in c.fuzzy :: k in d.fuzzy || Condition(k, c.fuzzy[k], true) in xs
    requires forall k | k in c.exact :: k in d.exact || Condition(k, c.exact[k], false) in xs
    ensures PutAll(d, xs) == c
    decreases xs
  {
    if xs == [] {
      assert d.fuzzy == c.fuzzy && d.exact == c.exact;
    } else {
      assert xs == [xs[0]] + xs[1..];
      PutListed(c, Put(d, xs[0]), xs[1..]);
    }
  }

  /** Writing any maps down in any order and parsing the text gives the maps back. */
  lemma RoundTrip(c: Conditions, xs: seq<Condition>, texts: seq<string>)
    requires ListedBy(c, xs) && WritesAll(texts, xs) && forall i | 0 <= i < |xs| :: Printable(xs[i])
    ensures Parse(Join(texts, ',')) == Some(c)
  {
    ReadWrittenAll(texts, xs, NONE);
    PutListed(c, NONE, xs);
    if xs == [] {
      assert Split("", ',')[1..] == [];
    } else {
      SplitJoin(texts, ',');
    }
  }
}
