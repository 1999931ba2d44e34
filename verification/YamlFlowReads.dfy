/** Printed flow sequences of scalars: exactly which ones read back. The splitter knows brackets but
    not quotes. */
module YamlFlowReads {
  import opened Text
  import opened YamlText
  import opened YamlSpec
  import opened YamlPrint
  import opened YamlRoundTrip
  import opened YamlFlow

  /** An atom that can stand in a flow collection. */
  predicate FlowAtom(v: Value) {
    IsAtom(v) && Printable(v) && !v.Seq? && !v.Map?
  }

  predicate FlowAtoms(items: seq<Value>) {
    forall i :: 0 <= i < |items| ==> FlowAtom(items[i])
  }

  /** The atom's text, as the first of its collection or after a comma and a blank. */
  predicate IsTextOf(t: string, v: Value)
    requires FlowAtom(v)
  {
    t == AtomText(v) || t == " " + AtomText(v)
  }

  function FlowTexts(items: seq<Value>): (r: seq<string>)
    requires FlowAtoms(items)
    ensures |r| == |items|
  {
    seq(|items|, i requires 0 <= i < |items| => (if i == 0 then "" else " ") + AtomText(items[i]))
  }

  // ---------------------------------------------------------------- one atom

  lemma AtomTextReads(t: string, v: Value)
    requires FlowAtom(v) && IsTextOf(t, v)
    ensures t != "" && !IsSpace(t[|t| - 1]) && Strip(t) == AtomText(v) && ScalarOf(Strip(t)) == v
    ensures t == AtomText(v) ==> !IsSpace(t[0])
  {
    hide AtomText, ScalarOf, WithoutComment, OpensKey, OpensDashMapping, Strip;
    AtomReads(v);
    var a := AtomText(v);
    StripTrimmed(a);
    StripIndented(1, a);
    assert Spaces(1) + a == " " + a;
  }

  /** Only strings have brackets or commas in their text. */
  lemma OtherAtomsAreFlat(t: string, v: Value)
    requires FlowAtom(v) && IsTextOf(t, v) && !v.Str?
    ensures IsFlat(t) && t != "" && t[|t| - 1] != ','
  {
    hide AtomText, Printable;
    AtomIsFlat(v);
  }

  lemma AtomIsFlat(v: Value)
    requires FlowAtom(v) && !v.Str?
    ensures IsFlat(AtomText(v)) && AtomText(v) != ""
  {
    hide IntText, IsFloatText;
    match v
    case Int(n) => IntTextReads(n);
    case Float(text) => FloatIsFlat(text);
    case Null =>
    case Bool(_) =>
  }

  lemma FloatIsFlat(text: string)
    requires IsFloatText(text)
    ensures IsFlat(text) && text != ""
  {
    hide IsMantissa, ExponentAt;
    FloatChars(text);
    assert forall i :: 0 <= i < |text| ==> FloatChar(text[i]);
  }

  // ---------------------------------------------------------------- a string and nothing else

  /** A text that is read as a printed string is, up to white space or a comment after it, that
      string in quotes. */
  lemma ReadsAsQuoted(s: string, x: string)
    requires OneLine(s) && s != "" && x != "" && x[0] == QuoteChar(s) && ScalarOf(x) == Str(s)
    requires |s| <= |x| ==> x[..|s|] == Quoted(s)[..|s|]
    ensures WithoutComment(x) == Quoted(s)
  {
    hide WithoutComment, ScalarOf, IsQuoted, Inner, EndsWith, StartsWith;
    var q := QuoteChar(s);
    Uncommenting(x, q);
    var y := WithoutComment(x);
    StringRead(x);
    NotShifted(s);
    assert IsQuoted(y) && Inner(y) == s;
    InnerOf(y);
    QuotedEnds(y, q);
  }

  /** No string is the beginning of itself in quotes. */
  lemma NotShifted(s: string)
    requires s != ""
    ensures s != Quoted(s)[..|s|]
  {
    hide Keeps, QuoteChar;
    var q := QuoteChar(s);
    assert ([q] + s)[..|s|] == Quoted(s)[..|s|];
    ShiftedIsConstant(q, s);
    if s == Quoted(s)[..|s|] {
      ConstantIsNotQuoted(s);
    }
  }

  lemma ConstantIsNotQuoted(s: string)
    requires s != "" && forall i :: 0 <= i < |s| ==> s[i] == s[0]
    ensures QuoteChar(s) != s[0]
  {
    hide Keeps;
    assert s[0] in s;
  }

  lemma WithoutPad(pad: string, w: string, t: string)
    requires pad + w <= pad + t || pad + t <= pad + w
    ensures w <= t || t <= w
  {
    assert (pad + w)[|pad|..] == w && (pad + t)[|pad|..] == t;
    if pad + w <= pad + t {
      assert w == t[..|w|] by {
        assert (pad + t)[..|pad + w|][|pad|..] == t[..|w|];
      }
    } else {
      assert t == w[..|t|] by {
        assert (pad + w)[..|pad + t|][|pad|..] == w[..|t|];
      }
    }
  }

  lemma SameBeginning(x: string, w: string, t: string, n: nat)
    requires x <= w && (w <= t || t <= w) && n <= |x| && n <= |t|
    ensures x[..n] == t[..n]
  {
  }

  /** An item that begins as the text of a string begins, and goes on with a comma where it is
      longer, reads as that string only if it is that text. */
  lemma OnlyItselfReads(s: string, pad: string, u: string)
    requires OneLine(s) && s != "" && (pad == "" || pad == " ")
    requires |u| > |pad| && u[..|pad|] == pad && u[|pad|] == QuoteChar(s)
    requires var n := |pad| + |Quoted(s)|; n < |u| ==> u[n] == ','
    requires var t := pad + Quoted(s); u <= t || t <= u
    requires ScalarOf(Strip(u)) == Str(s)
    ensures |u| >= |pad| + |Quoted(s)| && u[..|pad| + |Quoted(s)|] == pad + Quoted(s) && |u| == |pad| + |Quoted(s)|
  {
    hide ScalarOf, WithoutComment, Strip, Keeps, OneLine;
    var w := u[|pad|..];
    assert u == pad + w;
    StripOfPadded(pad, w);
    StripOfTrimmedStart(w);
    var x, t := Strip(w), Quoted(s);
    WithoutPad(pad, w, t);
    if |s| <= |x| {
      SameBeginning(x, w, t, |s|);
    }
    ReadsAsQuoted(s, x);
    Uncommenting(x, QuoteChar(s));
    assert t <= x && x <= w;
  }

  lemma StripOfPadded(pad: string, w: string)
    requires (pad == "" || pad == " ") && w != "" && !IsSpace(w[0])
    ensures Strip(pad + w) == Strip(w)
  {
    assert (" " + w)[1..] == w && "" + w == w;
    assert Lead(w) == 0;
    assert pad == " " ==> Lead(pad + w) == 1;
  }

  // ---------------------------------------------------------------- sequences

  predicate AreTextsOf(texts: seq<string>, items: seq<Value>) {
    && |texts| == |items| && FlowAtoms(items)
    && forall i :: 0 <= i < |items| ==> IsTextOf(texts[i], items[i])
  }

  /** The items read as these values. */
  predicate ReadAs(split: seq<string>, items: seq<Value>) {
    |split| == |items| && forall i :: 0 <= i < |items| ==> ScalarOf(Strip(split[i])) == items[i]
  }

  /** A first item that is read right was cut right. */
  lemma FirstCutIsRight(t: string, v: Value, rest: string, u: string)
    requires FlowAtom(v) && IsTextOf(t, v) && u + "," <= t + "," + rest
    requires NoTopComma(u) && DepthOf(u) == 0 && ScalarOf(Strip(u)) == v
    ensures NoTopComma(t) && DepthOf(t) == 0
  {
    hide ScalarOf, WithoutComment, Strip, NoTopComma, DepthOf, AtomText, Keeps, OneLine;
    if !v.Str? {
      OtherAtomsAreFlat(t, v);
      FlatDepth(t);
    } else {
      var s := v.s;
      assert AtomText(v) == Quoted(s) && Quotable(s) by { StringText(s); }
      var pad := if t == Quoted(s) then "" else " ";
      assert t == pad + Quoted(s);
      if s == "" {
        assert IsFlat(t);
        FlatDepth(t);
      } else {
        var text := t + "," + rest;
        assert text[|u|] == (u + ",")[|u|] == ',' && u == text[..|u|];
        assert text[|pad|] == QuoteChar(s) && (|pad| == 1 ==> text[0] == ' ');
        assert |u| > |pad|;
        assert text[|t|] == ',';
        OnlyItselfReads(s, pad, u);
        assert u == t;
      }
    }
  }

  lemma StringText(s: string)
    requires FlowAtom(Str(s))
    ensures AtomText(Str(s)) == Quoted(s) && Quotable(s)
  {
  }

  lemma AtomEnds(t: string, v: Value)
    requires FlowAtom(v) && IsTextOf(t, v)
    ensures t != "" && t[|t| - 1] != ','
  {
    hide NatText, IsFloatText, ScalarOf, Strip;
    AtomTextReads(t, v);
    if v.Str? {
      StringText(v.s);
    } else {
      OtherAtomsAreFlat(t, v);
    }
  }

  /** If the items that the splitter finds are read as the values, it has cut between their texts. */
  lemma {:induction false} ReadRightIsCutRight(texts: seq<string>, items: seq<Value>)
    requires items != [] && AreTextsOf(texts, items) && ReadAs(FlowItems(Join(texts, ",")), items)
    ensures IsSplit(texts)
    decreases |items|
  {
    hide ScalarOf, Strip, NoTopComma, DepthOf, IsTextOf, FlowItems, FlowAtom;
    var t, v := texts[0], items[0];
    assert IsTextOf(t, v) && FlowAtom(v);
    var text := Join(texts, ",");
    var split := FlowItems(text);
    FlowItemsMeaning(text);
    if |items| == 1 {
      assert split == [split[0]];
      AtomEnds(t, v);
      assert (split[0] + ",")[|split[0]|] == ',';
      assert split[0] == t;
    } else {
      var rest := Join(texts[1..], ",");
      assert text == t + "," + rest;
      JoinCons(split[0], split[1..], ",");
      assert split == [split[0]] + split[1..];
      FirstIsPrefix(split[0], Join(split[1..], ","), text);
      FirstCutIsRight(t, v, rest, split[0]);
      FirstItem(t, rest);
      assert split[1..] == FlowItems(rest);
      assert forall i :: 0 <= i < |items| - 1 ==> split[1..][i] == split[i + 1];
      ReadRightIsCutRight(texts[1..], items[1..]);
      SplitCons(t, texts[1..]);
      assert [t] + texts[1..] == texts;
    }
  }

  lemma SplitCons(t: string, rest: seq<string>)
    requires NoTopComma(t) && DepthOf(t) == 0 && IsSplit(rest)
    ensures IsSplit([t] + rest)
  {
    hide NoTopComma, DepthOf;
  }

  lemma FirstIsPrefix(u: string, more: string, text: string)
    requires u + "," + more == text || u + "," + more + "," == text
    ensures u + "," <= text
  {
    assert u + "," + more + "," == u + "," + (more + ",");
  }

  lemma {:induction false} SplitIsRead(texts: seq<string>, items: seq<Value>)
    requires AreTextsOf(texts, items)
    ensures ReadAs(texts, items)
  {
    hide ScalarOf, Strip, IsTextOf;
    forall i | 0 <= i < |items| ensures ScalarOf(Strip(texts[i])) == items[i] {
      AtomTextReads(texts[i], items[i]);
    }
  }

  lemma TextsAreTexts(items: seq<Value>)
    requires FlowAtoms(items)
    ensures AreTextsOf(FlowTexts(items), items)
    ensures items != [] ==> FlowTexts(items)[0] == AtomText(items[0])
  {
    hide AtomText, Printable;
    forall i | 0 <= i < |items| ensures IsTextOf(FlowTexts(items)[i], items[i]) {
      assert "" + AtomText(items[i]) == AtomText(items[i]);
    }
  }

  lemma JoinEnds(parts: seq<string>, sep: string)
    requires parts != [] && parts[0] != "" && parts[|parts| - 1] != ""
    ensures var j := Join(parts, sep);
            j != "" && j[0] == parts[0][0] && j[|j| - 1] == parts[|parts| - 1][|parts[|parts| - 1]| - 1]
  {
    JoinEndsAt(parts, sep);
  }

  lemma {:induction false} JoinEndsAt(parts: seq<string>, sep: string)
    requires parts != [] && parts[|parts| - 1] != ""
    ensures var j := Join(parts, sep); j != "" && j[|j| - 1] == parts[|parts| - 1][|parts[|parts| - 1]| - 1]
  {
    if |parts| > 1 {
      JoinEndsAt(parts[1..], sep);
    }
  }

  /** The inside of a printed flow collection, as the parser takes it out of its brackets. */
  lemma InsideOf(texts: seq<string>, open: char, close: char)
    requires texts != [] && texts[0] != "" && !IsSpace(texts[0][0])
    requires var last := texts[|texts| - 1]; last != "" && !IsSpace(last[|last| - 1])
    requires !IsSpace(open) && !IsSpace(close)
    ensures var inner := Join(texts, ",");
            var text := [open] + inner + [close];
            && Strip(text) == text && Strip(Inner(text)) == inner && StartsWith(text, [open]) && EndsWith(text, [close])
  {
    hide Join, Strip;
    JoinEnds(texts, ",");
    var inner := Join(texts, ",");
    var text := [open] + inner + [close];
    StripTrimmed(inner);
    StripTrimmed(text);
    assert text[1..|text| - 1] == inner;
    assert text[..1] == [open] && text[|text| - 1..] == [close];
  }

  /** `[a, b, c]` reads back exactly when no text has a comma outside brackets and all but the last
      close the brackets they open. */
  lemma FlowSeqReads(items: seq<Value>)
    requires items != [] && FlowAtoms(items)
    ensures FlowSeqOf("[" + Join(FlowTexts(items), ",") + "]") == Seq(items) <==> IsSplit(FlowTexts(items))
  {
    hide AtomText, ScalarOf, FlowAtom, FlowTexts, Strip, FlowItems, Join, NoTopComma, DepthOf, IsTextOf;
    var texts := FlowTexts(items);
    TextsAreTexts(items);
    var n := |items|;
    assert IsTextOf(texts[0], items[0]) && IsTextOf(texts[n - 1], items[n - 1])
           && FlowAtom(items[0]) && FlowAtom(items[n - 1]);
    AtomTextReads(texts[0], items[0]);
    AtomTextReads(texts[n - 1], items[n - 1]);
    InsideOf(texts, '[', ']');
    var split := FlowItems(Join(texts, ","));
    if IsSplit(texts) {
      SplitIsExact(texts);
      SplitIsRead(texts, items);
    } else if ReadAs(split, items) {
      ReadRightIsCutRight(texts, items);
    }
    var values := seq(|split|, i requires 0 <= i < |split| => ScalarOf(Strip(split[i])));
    assert FlowSeqOf("[" + Join(texts, ",") + "]") == Seq(values);
    assert values == items <==> ReadAs(split, items);
  }

  /** A comma inside quotes is cut at. */
  lemma CommaInQuotesIsCut()
    ensures FlowItems("'a,b'") == ["'a", "b'"] && !IsSplit([Quoted("a,b")])
  {
    hide FlowItems, DepthOf, Keeps;
    var text := "'a,b'";
    assert IsFlat("'a") && IsFlat("b'");
    FlatDepth("'a");
    FlatDepth("b'");
    assert text == "'a" + "," + "b'";
    FirstItem("'a", "b'");
    LastItem("b'");
    assert text[2] == ',' && text[..2] == "'a";
    assert [Quoted("a,b")][0] == text;
  }

  lemma TwoItems(a: Value, b: Value)
    requires FlowAtom(a) && FlowAtom(b)
    ensures FlowTexts([a, b]) == [AtomText(a), " " + AtomText(b)]
    ensures Join(FlowTexts([a, b]), ",") == AtomText(a) + "," + (" " + AtomText(b))
  {
    hide Printable, AtomText;
    var texts := FlowTexts([a, b]);
    assert "" + AtomText(a) == AtomText(a);
    assert texts[1..] == [" " + AtomText(b)];
  }

  /** Two scalars in brackets, the first closing the brackets it opens. */
  lemma PairOfAtomsReads(a: Value, b: Value, t: string, u: string)
    requires FlowAtom(a) && FlowAtom(b) && t == AtomText(a) && u == " " + AtomText(b)
    requires NoTopComma(t) && DepthOf(t) == 0 && NoTopComma(u)
    ensures FlowSeqOf("[" + (t + "," + u) + "]") == Seq([a, b])
  {
    hide FlowSeqOf, DepthOf, NoTopComma, FlowTexts, Join, Printable, AtomText;
    TwoItems(a, b);
    FlowSeqReads([a, b]);
  }

  /** Brackets inside quotes are counted, and do no harm when they match. */
  lemma BracketsInQuotesAreKept()
    ensures FlowSeqOf("['[x]', null]") == Seq([Str("[x]"), Null])
  {
    hide FlowSeqOf, DepthOf, NoTopComma, FlowAtom, AtomText;
    BracketedAtoms();
    MatchedBrackets();
    assert IsFlat(" null");
    FlatDepth(" null");
    assert "[" + ("'[x]'" + "," + " null") + "]" == "['[x]', null]";
    PairOfAtomsReads(Str("[x]"), Null, "'[x]'", " null");
  }

  lemma BracketedAtoms()
    ensures FlowAtom(Str("[x]")) && AtomText(Str("[x]")) == "'[x]'" && FlowAtom(Null) && AtomText(Null) == "null"
  {
    hide Keeps, Quotable, WithoutComment, OpensKey;
    assert '\'' !in "[x]" && OneLine("[x]");
    SimpleIsKept("[x]");
  }

  lemma MatchedBrackets()
    ensures DepthOf("'[x]'") == 0 && NoTopComma("'[x]'")
  {
    assert "'[x]'"[..4] == "'[x]" && "'[x]"[..3] == "'[x" && "'[x"[..2] == "'[" && "'["[..1] == "'" && "'"[..0] == "";
  }
}
