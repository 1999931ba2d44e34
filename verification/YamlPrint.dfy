/** A canonical printer for document trees: two-space block style, quoted strings, `[]` and `{}`
    for the empty collections, nested items under a bare dash. */
module YamlPrint {
  import opened Text
  import opened YamlText
  import opened YamlSpec

  predicate OneLine(s: string) {
    forall i :: 0 <= i < |s| ==> !IsLineBoundary(s[i])
  }

  /** The string between these quotes has no comment. The parser takes off the outer quotes and does
      not look inside. */
  predicate Keeps(q: char, s: string) {
    var text := [q] + s + [q];
    WithoutComment(text) == text
  }

  /** A string on one line that one of the two quotings keeps. */
  predicate Quotable(s: string) {
    OneLine(s) && (Keeps('\'', s) || Keeps('"', s))
  }

  /** A string without one of the two quotes; only such a string can be a quoted key. */
  predicate IsSimple(s: string) {
    OneLine(s) && !('\'' in s && '"' in s)
  }

  /** A quote that the string does not have, or else one that keeps it. */
  function QuoteChar(s: string): char {
    if '\'' !in s || ('"' in s && Keeps('\'', s)) then '\'' else '"'
  }

  function Quoted(s: string): string {
    [QuoteChar(s)] + s + [QuoteChar(s)]
  }

  /** What the regular expression `[\w$\-./]` takes. */
  predicate IsKeyChar(c: char) {
    || 'a' <= c <= 'z' || 'A' <= c <= 'Z' || '0' <= c <= '9'
    || c == '_' || c == '$' || c == '-' || c == '.' || c == '/'
  }

  predicate IsPlainKey(k: string) {
    k != "" && forall i :: 0 <= i < |k| ==> IsKeyChar(k[i])
  }

  /** A key that is printed without quotes. */
  predicate IsWordKey(k: string) {
    IsPlainKey(k) && k[0] != '-'
  }

  /** A run of key characters, or a simple string that has no quote at either end. */
  predicate PrintableKey(k: string) {
    IsWordKey(k) || (IsSimple(k) && DropQuotes(k) == k)
  }

  function KeyText(k: string): string {
    if IsWordKey(k) then k else Quoted(k)
  }

  predicate Printable(v: Value) {
    match v
    case Float(t) => IsFloatText(t)
    case Str(s) => Quotable(s)
    case Seq(items) => forall i :: 0 <= i < |items| ==> Printable(items[i])
    case Map(entries) =>
      && DistinctKeys(entries)
      && forall i :: 0 <= i < |entries| ==> PrintableKey(entries[i].key) && Printable(entries[i].val)
    case _ => true
  }

  predicate IsAtom(v: Value) {
    (v.Seq? ==> v.items == []) && (v.Map? ==> v.entries == [])
  }

  function AtomText(v: Value): string
    requires IsAtom(v)
  {
    match v
    case Null => "null"
    case Bool(b) => if b then "true" else "false"
    case Int(n) => IntText(n)
    case Float(t) => t
    case Str(s) => Quoted(s)
    case Seq(_) => "[]"
    case Map(_) => "{}"
  }

  function Indented(d: nat, body: string): string {
    Spaces(d) + body
  }

  /** `key: atom`, or `key:` before a nested block. */
  function EntryHead(e: Entry): string {
    KeyText(e.key) + ":" + (if IsAtom(e.val) then " " + AtomText(e.val) else "")
  }

  function BlockText(v: Value, d: nat): seq<string>
    requires !IsAtom(v)
    decreases v
  {
    if v.Seq? then ItemLines(v.items, d) else EntryLines(v.entries, d)
  }

  function ItemLines(items: seq<Value>, d: nat): seq<string>
    decreases items
  {
    if items == [] then []
    else
      (if IsAtom(items[0]) then [Indented(d, "- " + AtomText(items[0]))]
       else [Indented(d, "-")] + BlockText(items[0], d + 2))
      + ItemLines(items[1..], d)
  }

  function EntryLines(entries: seq<Entry>, d: nat): seq<string>
    decreases entries
  {
    if entries == [] then []
    else
      var e := entries[0];
      (if IsAtom(e.val) then [Indented(d, EntryHead(e))]
       else [Indented(d, EntryHead(e))] + BlockText(e.val, d + 2))
      + EntryLines(entries[1..], d)
  }

  function PrintLines(v: Value): seq<string> {
    if IsAtom(v) then [AtomText(v)] else BlockText(v, 0)
  }

  /** Every line ended by a newline. */
  function Unlines(lines: seq<string>): string {
    if lines == [] then "" else lines[0] + "\n" + Unlines(lines[1..])
  }

  // ---------------------------------------------------------------- quotes

  lemma {:induction false} QuotesInside(text: string, s: string, rest: string, i: nat)
    requires IsSimple(s) && text == Quoted(s) + rest && 1 <= i <= |s| + 1
    ensures QuoteAt(text, i) == if QuoteChar(s) == '"' then InDouble else InSingle
  {
    if i > 1 {
      QuotesInside(text, s, rest, i - 1);
      assert text[i - 1] == s[i - 2];
    } else {
      assert QuoteAt(text, 0) == Outside;
    }
  }

  lemma {:induction false} QuotesAfter(s: string, rest: string)
    requires IsSimple(s)
    ensures QuoteAt(Quoted(s) + rest, |s| + 2) == Outside
  {
    QuotesInside(Quoted(s) + rest, s, rest, |s| + 1);
  }

  lemma {:induction false} NoQuotesOutside(text: string, i: nat)
    requires i <= |text| && forall k :: 0 <= k < i ==> text[k] != '\'' && text[k] != '"'
    ensures QuoteAt(text, i) == Outside
  {
    if i > 0 {
      NoQuotesOutside(text, i - 1);
    }
  }

  // ---------------------------------------------------------------- comments

  lemma {:induction false} CommentFromMeaning(text: string, i: nat)
    requires i <= |text|
    ensures forall k :: i <= k < CommentFrom(text, i) ==> !OpensComment(text, k)
    ensures CommentFrom(text, i) < |text| ==> OpensComment(text, CommentFrom(text, i))
    decreases |text| - i
  {
    if i < |text| && !OpensComment(text, i) {
      CommentFromMeaning(text, i + 1);
    }
  }

  lemma Uncommented(text: string)
    requires Trimmed(text) && forall k :: 0 <= k < |text| ==> !OpensComment(text, k)
    ensures WithoutComment(text) == text && Strip(text) == text && LStrip(text) == text
  {
    CommentFromMeaning(text, 0);
    assert text[..|text|] == text;
    StripTrimmed(text);
  }

  // ---------------------------------------------------------------- numbers

  lemma {:induction false} NatTextReads(n: nat)
    ensures NatText(n) != "" && forall i :: 0 <= i < |NatText(n)| ==> IsDigit(NatText(n)[i])
    ensures DecimalOf(NatText(n)) == n
  {
    NatTextDigits(n);
    var init := if n < 10 then "" else NatText(n / 10);
    assert NatText(n)[..|NatText(n)| - 1] == init;
    if n >= 10 {
      NatTextReads(n / 10);
    }
  }

  lemma IntTextReads(n: int)
    ensures IntOf(IntText(n)) == Some(n)
    ensures IntText(n) != "" && forall i :: 0 <= i < |IntText(n)| ==> IsDigit(IntText(n)[i]) || IntText(n)[i] == '-'
  {
    hide NatText, DecimalOf;
    var m: nat := if n < 0 then -n else n;
    NatTextReads(m);
    var digits := NatText(m);
    assert IsDigit(digits[0]);
    assert forall i :: 0 <= i < |digits| ==> DigitOrSeparator(digits, i);
    if n < 0 {
      assert IntText(n)[1..] == digits;
    }
    assert DropSign(IntText(n)) == digits;
    assert StartsWith(IntText(n), "-") <==> n < 0;
  }

  predicate FloatChar(c: char) {
    IsDigit(c) || c == '_' || c == '.' || c == 'e' || c == 'E' || c == '+' || c == '-'
  }

  predicate AllFloatChars(s: string) {
    forall i :: 0 <= i < |s| ==> FloatChar(s[i])
  }

  lemma DigitPartChars(s: string)
    requires IsDigitPart(s)
    ensures AllFloatChars(s)
  {
    forall i | 0 <= i < |s| ensures FloatChar(s[i]) {
      assert DigitOrSeparator(s, i);
    }
  }

  lemma MantissaChars(s: string)
    requires IsMantissa(s)
    ensures AllFloatChars(s)
  {
    FindMeaning(s, '.');
    if Find(s, '.').None? {
      DigitPartChars(s);
    } else {
      var i := Find(s, '.').value;
      assert s == s[..i] + ['.'] + s[i + 1..];
      assert i > 0 ==> AllFloatChars(s[..i]) by {
        if i > 0 { DigitPartChars(s[..i]); }
      }
      assert i + 1 < |s| ==> AllFloatChars(s[i + 1..]) by {
        if i + 1 < |s| { DigitPartChars(s[i + 1..]); }
      }
    }
  }

  lemma SignedChars(s: string)
    requires AllFloatChars(DropSign(s))
    ensures AllFloatChars(s)
  {
    if DropSign(s) != s {
      assert s == [s[0]] + DropSign(s);
    }
  }

  lemma JoinedChars(s: string, t: string)
    requires AllFloatChars(s) && (AllFloatChars(t) || (|t| == 1 && t[0] in "eE"))
    ensures AllFloatChars(s + t)
  {
  }

  lemma FloatChars(s: string)
    requires IsFloatText(s)
    ensures AllFloatChars(s)
  {
    hide IsMantissa, IsDigitPart, ExponentAt, DropSign;
    var body := DropSign(s);
    var e := ExponentAt(body);
    MantissaChars(body[..e]);
    if e < |body| {
      var tail := body[e + 1..];
      DigitPartChars(DropSign(tail));
      SignedChars(tail);
      JoinedChars(body[..e], [body[e]]);
      JoinedChars(body[..e] + [body[e]], tail);
      assert body == body[..e] + [body[e]] + tail;
    } else {
      assert body[..e] == body;
    }
    SignedChars(s);
  }

  // ---------------------------------------------------------------- atoms

  /** How the text of an atom looks to the parser below a key or a dash: nothing to strip, no comment,
      and the first character decides the branch. */
  ghost predicate ReadsAs(a: string, v: Value) {
    && Trimmed(a) && a[0] !in "#|>" && OneLine(a) && WithoutComment(a) == a
    && !StartsWith(a, "- ") && a != "-" && !OpensDashMapping(a)
    && (if v.Seq? then a == "[]" else if v.Map? then a == "{}" else a[0] !in "[{" && ScalarOf(a) == v)
  }

  predicate PlainChar(c: char) {
    && !IsSpace(c) && c != '#' && c != '|' && c != '>' && c != ':' && c != '\'' && c != '"'
    && c != '[' && c != '{' && c != '~'
  }

  lemma PlainAtomReads(a: string, v: Value)
    requires a != "" && forall i :: 0 <= i < |a| ==> PlainChar(a[i])
    requires a != "-" && !v.Seq? && !v.Map?
    requires v == (if Lower(a) == "null" then Null else if Lower(a) == "true" then Bool(true)
                   else if Lower(a) == "false" then Bool(false) else NumberOrText(a))
    ensures ReadsAs(a, v)
  {
    Uncommented(a);
    assert a[0] in a && Lower(a)[0] == LowerChar(a[0]);
    assert ':' !in a;
    assert !IsQuoted(a);
    assert |a| > 1 ==> a[1] != ' ' && "- "[1] == ' ';
  }

  lemma NumberReads(a: string, v: Value)
    requires AllFloatChars(a) && a != "" && a != "-" && NumberOrText(a) == v
    requires exists i :: 0 <= i < |a| && (IsDigit(a[i]) || a[i] == '.')
    requires !v.Seq? && !v.Map?
    ensures ReadsAs(a, v)
  {
    hide NumberOrText, ReadsAs;
    var i :| 0 <= i < |a| && (IsDigit(a[i]) || a[i] == '.');
    assert Lower(a)[i] == a[i];
    assert a[i] !in "null" && a[i] !in "true" && a[i] !in "false";
    assert forall k :: 0 <= k < |a| ==> FloatChar(a[k]) && PlainChar(a[k]);
    PlainAtomReads(a, v);
  }

  lemma SimpleIsKept(s: string)
    requires IsSimple(s)
    ensures WithoutComment(Quoted(s)) == Quoted(s) && Quotable(s) && !OpensKey(Quoted(s))
  {
    hide WithoutComment, QuoteAt;
    var a := Quoted(s);
    assert a + "" == a;
    forall k | 0 <= k < |a|
      ensures !OpensComment(a, k) && !IsKeyColon(a, k)
    {
      if 1 <= k {
        QuotesInside(a, s, "", k);
      }
    }
    Uncommented(a);
  }

  lemma QuotedIsKept(s: string)
    requires Quotable(s)
    ensures WithoutComment(Quoted(s)) == Quoted(s)
  {
    hide WithoutComment;
    if IsSimple(s) {
      SimpleIsKept(s);
    }
  }

  lemma StringReads(s: string)
    requires Quotable(s)
    ensures ReadsAs(Quoted(s), Str(s))
  {
    hide WithoutComment, QuoteAt, Lower, QuoteChar, ScalarOf;
    var a := Quoted(s);
    QuotedIsKept(s);
    QuotedShape(s);
    KeptReads(QuoteChar(s), s);
    assert a[..1] == [QuoteChar(s)] && a[0] == QuoteChar(s);
  }

  lemma QuotedShape(s: string)
    requires OneLine(s)
    ensures OneLine(Quoted(s)) && Trimmed(Quoted(s)) && Quoted(s)[0] !in "#|>[{" && QuoteChar(s) in "'\""
  {
    hide Keeps;
  }

  lemma KeptReads(q: char, s: string)
    requires (q == '\'' || q == '"') && Keeps(q, s)
    ensures ScalarOf([q] + s + [q]) == Str(s)
  {
    hide WithoutComment, Lower;
    var a := [q] + s + [q];
    assert a[1..|a| - 1] == s;
    assert a[..1] == [q] && a[|a| - 1..] == [q];
  }

  /** What is left of a text that starts with a quote once its comment is gone. */
  lemma Uncommenting(x: string, q: char)
    requires x != "" && x[0] == q && (q == '\'' || q == '"')
    ensures var y := WithoutComment(x); y != "" && y <= x && y[0] == q
    ensures var y := WithoutComment(x); |y| < |x| ==> IsSpace(x[|y|]) || x[|y|] == '#'
  {
    hide QuoteAt, Strip, RStrip;
    var c := CommentFrom(x, 0);
    CommentFromMeaning(x, 0);
    assert c > 0;
    assert x[..c][0] == q;
    StripOfTrimmedStart(x[..c]);
  }

  lemma StripOfTrimmedStart(s: string)
    requires s != "" && !IsSpace(s[0])
    ensures var y := Strip(s); y != "" && y <= s && y[0] == s[0] && (|y| < |s| ==> IsSpace(s[|y|]))
  {
    assert Lead(s) == 0 && LStrip(s) == s;
    RStripMeaning(s);
    RStripRest(s);
  }

  lemma {:induction false} RStripRest(s: string)
    ensures RStrip(s) <= s && (|RStrip(s)| < |s| ==> IsSpace(s[|RStrip(s)|]))
  {
    if s != "" && IsSpace(s[|s| - 1]) {
      RStripRest(s[..|s| - 1]);
    }
  }

  lemma StringRead(x: string)
    requires ScalarOf(x).Str? && WithoutComment(x) != ""
    ensures var y := WithoutComment(x); ScalarOf(x).s == if IsQuoted(y) then Inner(y) else y
  {
    hide WithoutComment, IsFloatText, IntOf, Lower, IsQuoted, Inner;
  }

  lemma InnerOf(y: string)
    requires Inner(y) != ""
    ensures |y| >= 2 && y == [y[0]] + Inner(y) + [y[|y| - 1]]
  {
  }

  lemma QuotedEnds(y: string, q: char)
    requires |y| >= 2 && y[0] == q && (q == '\'' || q == '"') && IsQuoted(y)
    ensures y[|y| - 1] == q
  {
  }

  /** A string is read back from either kind of quotes exactly when no comment opens between them,
      whatever quotes it has inside. */
  lemma QuotedReads(q: char, s: string)
    requires q == '\'' || q == '"'
    ensures ScalarOf([q] + s + [q]) == Str(s) <==> Keeps(q, s)
  {
    hide WithoutComment, ScalarOf, IsQuoted, Inner;
    var x := [q] + s + [q];
    if Keeps(q, s) {
      KeptReads(q, s);
    }
    if ScalarOf(x) == Str(s) {
      Uncommenting(x, q);
      StringRead(x);
      var y := WithoutComment(x);
      if !IsQuoted(y) {
        ShiftedIsConstant(q, s);
      } else if s != "" {
        InnerOf(y);
      }
    }
  }

  /** The printable strings are those on one line that some quotes give back. */
  lemma QuotableMeaning(s: string)
    requires OneLine(s)
    ensures Quotable(s) <==> ScalarOf("'" + s + "'") == Str(s) || ScalarOf("\"" + s + "\"") == Str(s)
  {
    hide ScalarOf, Keeps;
    QuotedReads('\'', s);
    QuotedReads('"', s);
  }

  /** Without a `#` every one-line string is printable, whatever quotes it has. */
  lemma NoHashIsKept(q: char, s: string)
    requires (q == '\'' || q == '"') && '#' !in s
    ensures Keeps(q, s) && (OneLine(s) ==> Quotable(s))
  {
    hide WithoutComment, QuoteAt;
    Uncommented([q] + s + [q]);
    Uncommented("'" + s + "'");
  }

  lemma {:induction false} ShiftedIsConstant(q: char, s: string)
    ensures s == ([q] + s)[..|s|] ==> forall i :: 0 <= i < |s| ==> s[i] == q
  {
    if s != "" && s == ([q] + s)[..|s|] {
      var init := s[..|s| - 1];
      assert forall i :: 0 < i < |s| ==> s[i] == s[i - 1];
      assert init == ([q] + init)[..|init|];
      ShiftedIsConstant(q, init);
    }
  }

  lemma KeywordReads(v: Value)
    requires v.Null? || v.Bool?
    ensures ReadsAs(AtomText(v), v)
  {
    var a := AtomText(v);
    assert Lower(a) == a;
    PlainAtomReads(a, v);
  }

  lemma IntReads(n: int)
    ensures ReadsAs(IntText(n), Int(n))
  {
    hide NumberOrText, NatText;
    IntTextReads(n);
    NatTextReads(if n < 0 then -n else n);
    var a := IntText(n);
    assert '.' !in a;
    assert IsDigit(a[|a| - 1]);
    IntIsNumber(n);
    NumberReads(a, Int(n));
  }

  lemma IntIsNumber(n: int)
    requires '.' !in IntText(n)
    ensures NumberOrText(IntText(n)) == Int(n)
  {
    IntTextReads(n);
  }

  lemma FloatReads(t: string)
    requires IsFloatText(t)
    ensures ReadsAs(t, Float(t))
  {
    FloatChars(t);
    var i :| 0 <= i < |t| && t[i] == '.';
    NumberReads(t, Float(t));
  }

  lemma AtomReads(v: Value)
    requires IsAtom(v) && Printable(v)
    ensures ReadsAs(AtomText(v), v)
  {
    match v
    case Null => KeywordReads(v);
    case Bool(_) => KeywordReads(v);
    case Int(n) => IntReads(n);
    case Float(t) => FloatReads(t);
    case Str(s) => StringReads(s);
    case Seq(_) => EmptyReads(v);
    case Map(_) => EmptyReads(v);
  }

  lemma EmptyReads(v: Value)
    requires v == Seq([]) || v == Map([])
    ensures ReadsAs(AtomText(v), v)
  {
    Uncommented(AtomText(v));
  }

  // ---------------------------------------------------------------- scalars that stand alone

  /** On a line of its own, not below a key or a dash, an atom must not look like a key. */
  ghost predicate StandsAlone(v: Value) {
    IsAtom(v) ==> !OpensKey(AtomText(v))
  }

  /** Only strings with both kinds of quote can look like a key. */
  lemma SimpleStandsAlone(v: Value)
    requires Printable(v) && (v.Str? ==> IsSimple(v.s))
    ensures StandsAlone(v)
  {
    hide OpensKey, IsFloatText, IntText, Quoted, QuoteAt;
    match v
    case Str(s) => SimpleIsKept(s);
    case Int(n) =>
      IntTextReads(n);
      NoColonNoKey(IntText(n));
    case Float(t) =>
      FloatChars(t);
      NoColonNoKey(t);
    case Null => NoColonNoKey("null");
    case Bool(b) => NoColonNoKey(AtomText(v));
    case Seq(_) => NoColonNoKey("[]");
    case Map(_) => NoColonNoKey("{}");
  }

  lemma NoColonNoKey(a: string)
    requires ':' !in a
    ensures !OpensKey(a)
  {
    assert forall i :: 0 <= i < |a| ==> !IsKeyColon(a, i);
  }
}
