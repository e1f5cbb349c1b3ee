/**
  The label-filter mini-language of pkg/service/resources/v1alpha3/interface.go: the two parsing
  loops, and the proof that a printed list of terms is read back as the conjunction of their meanings.
 */
module Labels {
  import opened Text

  const SPACE: char -> bool := c => IsSpace(c)

  function TrimSpace(s: string): string {
    Trim(s, SPACE)
  }

  datatype Term = Has(key: string) | Is(key: string, value: string) | IsNot(key: string, value: string)

  /** What a term is meant to say about a label map. */
  predicate Meaning(labels: map<string, string>, t: Term) {
    match t
    case Has(k) => k in labels
    case Is(k, v) => k in labels && (v == "*" || labels[k] == v)
    case IsNot(k, v) => k in labels && labels[k] != v
  }

  /** How labelMatch reads one trimmed term: a key, "key=value" or "key!=value". */
  function ParseTerm(filter: string): Term {
    var i := IndexOf(filter, '=');
    if i < 0 then Has(filter)
    else if i > 0 && filter[i - 1] == '!' then IsNot(filter[..i - 1], filter[i + 1..])
    else Is(filter[..i], filter[i + 1..])
  }

  predicate TermHolds(labels: map<string, string>, filter: string) {
    Meaning(labels, ParseTerm(filter))
  }

  predicate LabelsHold(labels: map<string, string>, filterStr: string) {
    var filters := Split(filterStr, ',');
    forall i | 0 <= i < |filters| :: TermHolds(labels, TrimSpace(filters[i]))
  }

  method LabelMatch(labels: map<string, string>, filter: string) returns (matched: bool)
    ensures matched == TermHolds(labels, filter)
  {
    var key, value := filter, "*";
    var opposite := false;
    var i := IndexOf(filter, '=');
    if i >= 0 {
      key := filter[..i];
      if |key| > 0 && key[|key| - 1] == '!' {
        key := key[..|key| - 1];
        opposite := true;
      }
      value := filter[i + 1..];
    }
    ghost var t := ParseTerm(filter);
    assert key == t.key && opposite == t.IsNot? && value == if t.Has? then "*" else t.value;
    var rest := labels.Keys;
    while rest != {}
      invariant rest <= labels.Keys
      invariant key in labels && key !in rest ==>
                  if opposite then labels[key] == value else value != "*" && labels[key] != value
    {
      var k :| k in rest;
      var v := labels[k];
      if opposite {
        if k == key && v != value {
          return true;
        }
      } else {
        if k == key && (value == "*" || v == value) {
          return true;
        }
      }
      rest := rest - {k};
    }
    return false;
  }

  method LabelsMatch(labels: map<string, string>, filterStr: string) returns (matched: bool)
    ensures matched == LabelsHold(labels, filterStr)
  {
    var filters := Split(filterStr, ',');
    matched := true;
    for i := 0 to |filters|
      invariant matched <==> forall j | 0 <= j < i :: TermHolds(labels, TrimSpace(filters[j]))
    {
      var one := LabelMatch(labels, TrimSpace(filters[i]));
      matched := matched && one;
      if !matched {
        break;
      }
    }
  }

  // ----- The language

  function Print(t: Term): string {
    match t
    case Has(k) => k
    case Is(k, v) => k + "=" + v
    case IsNot(k, v) => k + "!=" + v
  }

  /** A key that a term can carry: no "=" in it, and under "=" no "!" at its end. */
  ghost predicate KeyReadable(t: Term) {
    Free(t.key, '=') && (t.Is? ==> t.key == [] || t.key[|t.key| - 1] != '!')
  }

  /** A term that can stand in a list: besides, no comma in it and no white space at its ends. */
  ghost predicate WellFormed(t: Term) {
    && KeyReadable(t)
    && Free(t.key, ',')
    && (t.key != [] ==> !IsSpace(t.key[0]))
    && (t.Has? ==> (t.key != [] ==> !IsSpace(t.key[|t.key| - 1])))
    && (!t.Has? ==> Free(t.value, ',') && (t.value != [] ==> !IsSpace(t.value[|t.value| - 1])))
  }

  /** A term with optional white space around it. */
  datatype Padded = Padded(left: string, term: Term, right: string)

  ghost predicate PaddedOK(p: Padded) {
    && AllCut(p.left, SPACE) && AllCut(p.right, SPACE) && WellFormed(p.term)
  }

  function PrintPadded(p: Padded): string {
    p.left + Print(p.term) + p.right
  }

  function PrintAll(ps: seq<Padded>): (texts: seq<string>)
    ensures |texts| == |ps| && forall i | 0 <= i < |ps| :: texts[i] == PrintPadded(ps[i])
  {
    if ps == [] then [] else [PrintPadded(ps[0])] + PrintAll(ps[1..])
  }

  lemma FirstIndex(s: string, c: char, t: string)
    requires Free(s, c)
    ensures IndexOf(s + [c] + t, c) == |s|
    ensures (s + [c] + t)[..|s|] == s && (s + [c] + t)[|s| + 1..] == t
  {
    var whole := s + [c] + t;
    assert forall j | 0 <= j < |s| :: whole[j] == s[j];
    assert whole[|s|] == c;
    var i := IndexOf(whole, c);
    assert forall j | 0 <= j < i :: whole[..i][j] == whole[j] != c;
  }

  lemma ParseIs(k: string, v: string)
    requires Free(k, '=') && (k != [] ==> k[|k| - 1] != '!')
    ensures ParseTerm(Print(Is(k, v))) == Is(k, v)
  {
    FirstIndex(k, '=', v);
    var s := Print(Is(k, v));
    assert s == k + ['='] + v;
    assert k != [] ==> s[|k| - 1] == k[|k| - 1];
  }

  lemma ParseIsNot(k: string, v: string)
    requires Free(k, '=')
    ensures ParseTerm(Print(IsNot(k, v))) == IsNot(k, v)
  {
    var bang := k + "!";
    FirstIndex(bang, '=', v);
    var s := Print(IsNot(k, v));
    assert s == bang + ['='] + v;
    assert s[|bang| - 1] == '!' && s[..|k|] == k;
  }

  /** A key with "=" in it is cut at the first one. */
  lemma KeyCut(t: Term)
    requires !Free(t.key, '=')
    ensures ParseTerm(Print(t)) != t
  {
    var s := Print(t);
    var i, j := IndexOf(t.key, '='), IndexOf(s, '=');
    assert forall k | 0 <= k < |t.key| :: s[k] == t.key[k];
    assert forall k | 0 <= k < j :: s[..j][k] == s[k] != '=';
    assert s[i] == '=';
    assert 0 <= j <= i < |t.key|;
    assert |ParseTerm(s).key| <= j;
  }

  /** Reading a printed term gives the term back exactly when its key is readable. */
  lemma ParsePrintIff(t: Term)
    ensures ParseTerm(Print(t)) == t <==> KeyReadable(t)
  {
    if !Free(t.key, '=') {
      KeyCut(t);
    } else {
      match t
      case Has(_) =>
      case Is(k, v) =>
        if KeyReadable(t) {
          ParseIs(k, v);
        } else {
          var short := k[..|k| - 1];
          assert k == short + "!";
          BangReadsAsOpposite(short, v);
        }
      case IsNot(k, v) => ParseIsNot(k, v);
    }
  }

  lemma PrintedTrimmed(p: Padded)
    requires PaddedOK(p)
    ensures Trimmed(Print(p.term), SPACE) && TrimSpace(PrintPadded(p)) == Print(p.term)
    ensures Free(PrintPadded(p), ',')
  {
    var s := Print(p.term);
    assert Trimmed(s, SPACE);
    TrimPadded(p.left, s, p.right, SPACE);
    assert Free(p.left, ',') by {
      assert !SPACE(',');
    }
    assert Free(p.right, ',') by {
      assert !SPACE(',');
    }
  }

  ghost predicate AllMeant(labels: map<string, string>, ps: seq<Padded>) {
    forall i | 0 <= i < |ps| :: Meaning(labels, ps[i].term)
  }

  lemma LabelFilterHolds(labels: map<string, string>, ps: seq<Padded>)
    requires ps != [] && forall i | 0 <= i < |ps| :: PaddedOK(ps[i])
    ensures LabelsHold(labels, Join(PrintAll(ps), ',')) <==> AllMeant(labels, ps)
  {
    hide TrimSpace, ParseTerm, PrintPadded, Print, Meaning;
    var texts := PrintAll(ps);
    forall i | 0 <= i < |ps|
      ensures Free(texts[i], ',')
      ensures TermHolds(labels, TrimSpace(texts[i])) <==> Meaning(labels, ps[i].term)
    {
      PrintedTrimmed(ps[i]);
      ParsePrintIff(ps[i].term);
    }
    SplitJoin(texts, ',');
  }

  /** A printed list of terms selects exactly the label maps that satisfy every term. */
  lemma LabelFilterMeaning(labels: map<string, string>, ps: seq<Padded>)
    requires ps != [] && forall i | 0 <= i < |ps| :: PaddedOK(ps[i])
    ensures LabelsHold(labels, Join(PrintAll(ps), ',')) <==>
              forall i | 0 <= i < |ps| ::
                match ps[i].term
                case Has(k) => k in labels
                case Is(k, v) => k in labels && (v == "*" || labels[k] == v)
                case IsNot(k, v) => k in labels && labels[k] != v
  {
    hide LabelsHold, PrintAll, Join, PaddedOK;
    LabelFilterHolds(labels, ps);
  }

  lemma Cut(s: string, i: nat)
    requires i < |s|
    ensures s == s[..i] + [s[i]] + s[i + 1..]
  {
  }

  lemma FreePart(s: string, c: char, k: nat)
    requires k <= |s| && Free(s, c)
    ensures Free(s[..k], c)
  {
  }

  /** Every text is a printed term, so that the meaning of terms is the meaning of all filters. */
  lemma PrintParse(filter: string)
    ensures Print(ParseTerm(filter)) == filter && KeyReadable(ParseTerm(filter))
  {
    hide Free;
    var i := IndexOf(filter, '=');
    if i >= 0 {
      Cut(filter, i);
      if i > 0 && filter[i - 1] == '!' {
        var key := filter[..i];
        Cut(key, i - 1);
        FreePart(key, '=', i - 1);
        assert key[i - 1] == filter[i - 1] && key[..i - 1] == filter[..i - 1] && key[i..] == [];
        assert key == filter[..i - 1] + "!";
        assert filter[..i - 1] + "!=" + filter[i + 1..] == (filter[..i - 1] + "!") + "=" + filter[i + 1..];
      } else if i > 0 {
        assert filter[..i][i - 1] == filter[i - 1];
      }
    }
  }

  /** The empty filter is not the empty conjunction: it asks for a label with the empty key. */
  lemma EmptyFilter(labels: map<string, string>)
    ensures LabelsHold(labels, "") <==> "" in labels
  {
    var filters := Split("", ',');
    assert filters == [""] && TrimSpace("") == "" && IndexOf("", '=') == -1;
    assert filters[0] == "";
  }

  /** Why a key under "=" must not end in "!": such a text is read as the opposite test. */
  lemma BangReadsAsOpposite(k: string, v: string)
    requires Free(k, '=')
    ensures ParseTerm(Print(Is(k + "!", v))) == IsNot(k, v)
  {
    assert Print(Is(k + "!", v)) == Print(IsNot(k, v));
    ParseIsNot(k, v);
  }
}
