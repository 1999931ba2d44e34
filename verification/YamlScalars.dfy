/** How every text is read as a scalar: the grammars of integers and floats, the keywords, and
    strings, each in terms of the characters alone. */
module YamlScalars {
  import opened Text
  import opened YamlText
  import opened YamlPrint

  // ---------------------------------------------------------------- digits

  predicate AllDigits(s: string) {
    forall i :: 0 <= i < |s| ==> '0' <= s[i] <= '9'
  }

  /** Digits in groups with single underscores between them. */
  predicate IsGrouped(s: string) {
    var groups := Split(s, '_');
    forall i :: 0 <= i < |groups| ==> groups[i] != "" && AllDigits(groups[i])
  }

  const DIGITS := "0123456789"

  /** The number that decimal digits stand for; underscores are passed over. */
  function ValueOf(s: string): nat {
    if s == "" then 0
    else
      var init, c := s[..|s| - 1], s[|s| - 1];
      match Find(DIGITS, c)
      case None => ValueOf(init)
      case Some(d) => 10 * ValueOf(init) + d
  }

  predicate IsSign(s: string) {
    s == "" || s == "+" || s == "-"
  }

  lemma DigitPosition(c: char)
    ensures Find(DIGITS, c) == if '0' <= c <= '9' then Some(c as int - '0' as int) else None
  {
    if '0' <= c <= '9' {
      var i := c as int - '0' as int;
      assert DIGITS[i] == c && c !in DIGITS[..i];
      FindFirst(DIGITS, c, i);
    } else {
      FindMeaning(DIGITS, c);
    }
  }

  lemma {:induction false} DecimalIsValue(s: string)
    ensures DecimalOf(s) == ValueOf(s)
  {
    if s != "" {
      DecimalIsValue(s[..|s| - 1]);
      DigitPosition(s[|s| - 1]);
    }
  }

  lemma {:induction false} FirstGroup(a: string, b: string)
    requires '_' !in a
    ensures IsGrouped(a + "_" + b) <==> a != "" && AllDigits(a) && IsGrouped(b)
    ensures IsGrouped(a) <==> a != "" && AllDigits(a)
  {
    hide AllDigits, Split;
    SplitPlain(a, '_');
    SplitAt(a, b, '_');
    var groups := Split(b, '_');
    var all := [a] + groups;
    assert Split(a + "_" + b, '_') == all;
    assert all[0] == a && forall i :: 0 <= i < |groups| ==> all[i + 1] == groups[i];
  }

  lemma DigitPartStep(a: string, b: string)
    requires '_' !in a
    ensures IsDigitPart(a + "_" + b) <==> a != "" && AllDigits(a) && IsDigitPart(b)
    ensures IsDigitPart(a) <==> a != "" && AllDigits(a)
  {
    var s := a + "_" + b;
    assert forall i :: 0 <= i < |a| ==> s[i] == a[i] && a[i] in a;
    assert s[|a|] == '_' && forall i :: 0 <= i < |b| ==> s[|a| + 1 + i] == b[i];
    if IsDigitPart(s) {
      assert DigitOrSeparator(s, |a|);
      forall i | 0 <= i < |a| ensures '0' <= a[i] <= '9' {
        assert DigitOrSeparator(s, i);
      }
      forall i | 0 <= i < |b| ensures DigitOrSeparator(b, i) {
        assert DigitOrSeparator(s, |a| + 1 + i);
      }
    }
    if a != "" && AllDigits(a) && IsDigitPart(b) {
      forall i | 0 <= i < |s| ensures DigitOrSeparator(s, i) {
        if i > |a| {
          assert DigitOrSeparator(b, i - |a| - 1);
        }
      }
    }
    if IsDigitPart(a) {
      forall i | 0 <= i < |a| ensures '0' <= a[i] <= '9' {
        assert DigitOrSeparator(a, i);
      }
    }
  }

  lemma {:induction false} DigitPartMeaning(s: string)
    ensures IsDigitPart(s) <==> IsGrouped(s)
  {
    hide IsDigitPart, IsGrouped, AllDigits;
    FindMeaning(s, '_');
    if Find(s, '_').None? {
      FirstGroup(s, "");
      DigitPartStep(s, "");
    } else {
      var i := Find(s, '_').value;
      var a, b := s[..i], s[i + 1..];
      assert s == a + "_" + b;
      DigitPartMeaning(b);
      FirstGroup(a, b);
      DigitPartStep(a, b);
    }
  }

  // ---------------------------------------------------------------- integers

  predicate IsIntText(t: string, sign: string, digits: string) {
    IsSign(sign) && IsGrouped(digits) && t == sign + digits
  }

  lemma GroupedStart(s: string)
    requires IsGrouped(s)
    ensures s != "" && '0' <= s[0] <= '9' && '0' <= s[|s| - 1] <= '9'
    ensures forall i :: 0 <= i < |s| ==> '0' <= s[i] <= '9' || s[i] == '_'
  {
    DigitPartMeaning(s);
    forall i | 0 <= i < |s| ensures '0' <= s[i] <= '9' || s[i] == '_' {
      assert DigitOrSeparator(s, i);
    }
    assert DigitOrSeparator(s, |s| - 1);
  }

  lemma SignDropped(sign: string, rest: string)
    requires IsSign(sign) && rest != "" && rest[0] != '+' && rest[0] != '-'
    ensures DropSign(sign + rest) == rest
  {
    assert sign == "" ==> sign + rest == rest;
    assert sign != "" ==> (sign + rest)[1..] == rest;
  }

  lemma SignOf(t: string) returns (sign: string)
    ensures IsSign(sign) && t == sign + DropSign(t)
    ensures sign == "-" <==> StartsWith(t, "-")
  {
    sign := if DropSign(t) == t then "" else t[..1];
  }

  /** Exactly which texts Python's `int` takes here: a sign or none and grouped decimal digits. */
  lemma IntMeaning(t: string)
    ensures IntOf(t).Some? <==> exists sign, digits :: IsIntText(t, sign, digits)
    ensures forall sign, digits :: IsIntText(t, sign, digits) ==>
              IntOf(t) == Some(if sign == "-" then -(ValueOf(digits) as int) else ValueOf(digits))
  {
    hide IntOf, IsIntText, ValueOf;
    if IntOf(t).Some? {
      var sign := IntParts(t);
    }
    forall sign, digits | IsIntText(t, sign, digits)
      ensures IntOf(t) == Some(if sign == "-" then -(ValueOf(digits) as int) else ValueOf(digits))
    {
      IntJoins(t, sign, digits);
    }
  }

  lemma IntParts(t: string) returns (sign: string)
    requires IntOf(t).Some?
    ensures IsIntText(t, sign, DropSign(t))
  {
    hide IsDigitPart, IsGrouped, DecimalOf, DropSign;
    sign := SignOf(t);
    DigitPartMeaning(DropSign(t));
  }

  lemma IntJoins(t: string, sign: string, digits: string)
    requires IsIntText(t, sign, digits)
    ensures IntOf(t) == Some(if sign == "-" then -(ValueOf(digits) as int) else ValueOf(digits))
  {
    hide IsDigitPart, IsGrouped, DecimalOf, ValueOf, DropSign;
    GroupedStart(digits);
    DigitPartMeaning(digits);
    SignDropped(sign, digits);
    DecimalIsValue(digits);
    assert t[0] == if sign == "" then digits[0] else sign[0];
    assert t[..1] == [t[0]];
  }

  // ---------------------------------------------------------------- floats

  /** `e` or `E`, a sign or none, and digits; or nothing. */
  ghost predicate IsExponent(e: string) {
    e == "" || exists sign, digits :: IsExponentOf(e, sign, digits)
  }

  predicate IsExponentOf(e: string, sign: string, digits: string) {
    IsSign(sign) && IsGrouped(digits) && (e == "e" + sign + digits || e == "E" + sign + digits)
  }

  predicate MayBeGrouped(s: string) {
    s == "" || IsGrouped(s)
  }

  ghost predicate IsFloatOf(t: string, sign: string, whole: string, fraction: string, exponent: string) {
    && IsSign(sign) && MayBeGrouped(whole) && MayBeGrouped(fraction)
    && (whole != "" || fraction != "") && IsExponent(exponent)
    && t == sign + whole + "." + fraction + exponent
  }

  lemma {:induction false} ExponentAtMeaning(s: string)
    ensures forall i :: 0 <= i < ExponentAt(s) ==> s[i] != 'e' && s[i] != 'E'
  {
    if s != "" && s[0] != 'e' && s[0] != 'E' {
      ExponentAtMeaning(s[1..]);
    }
  }

  lemma {:induction false} ExponentIs(s: string, n: nat)
    requires n <= |s| && (forall i :: 0 <= i < n ==> s[i] != 'e' && s[i] != 'E')
    requires n < |s| ==> s[n] == 'e' || s[n] == 'E'
    ensures ExponentAt(s) == n
  {
    if n > 0 {
      ExponentIs(s[1..], n - 1);
    }
  }

  lemma ExponentMeaning(e: string)
    requires e == "" || e[0] == 'e' || e[0] == 'E'
    ensures IsExponent(e) <==> (e == "" || IsDigitPart(DropSign(e[1..])))
  {
    hide IsDigitPart, DropSign, IsExponentOf;
    if e != "" && IsDigitPart(DropSign(e[1..])) {
      var sign := ExponentParts(e);
    }
    if e != "" && IsExponent(e) {
      var sign, digits :| IsExponentOf(e, sign, digits);
      ExponentTail(e, sign, digits);
    }
  }

  lemma ExponentParts(e: string) returns (sign: string)
    requires e != "" && (e[0] == 'e' || e[0] == 'E') && IsDigitPart(DropSign(e[1..]))
    ensures IsExponentOf(e, sign, DropSign(e[1..]))
  {
    hide IsDigitPart, IsGrouped, DropSign;
    sign := SignOf(e[1..]);
    DigitPartMeaning(DropSign(e[1..]));
    assert e == [e[0]] + (sign + DropSign(e[1..])) == [e[0]] + sign + DropSign(e[1..]);
  }

  lemma ExponentTail(e: string, sign: string, digits: string)
    requires e != "" && IsExponentOf(e, sign, digits)
    ensures IsDigitPart(DropSign(e[1..]))
  {
    hide IsDigitPart, IsGrouped, DropSign;
    GroupedStart(digits);
    assert e[1..] == sign + digits;
    SignDropped(sign, digits);
    DigitPartMeaning(digits);
  }

  lemma MantissaMeaning(m: string, whole: string, fraction: string)
    requires m == whole + "." + fraction && '.' !in whole
    ensures IsMantissa(m) <==> MayBeGrouped(whole) && MayBeGrouped(fraction) && (whole != "" || fraction != "")
  {
    hide IsDigitPart, IsGrouped;
    assert m[..|whole|] == whole && m[|whole|] == '.' && m[|whole| + 1..] == fraction;
    FindFirst(m, '.', |whole|);
    DigitPartMeaning(whole);
    DigitPartMeaning(fraction);
  }

  lemma NoPointNoMantissaPoint(s: string)
    requires IsDigitPart(s)
    ensures '.' !in s && 'e' !in s && 'E' !in s
  {
    forall i | 0 <= i < |s| ensures s[i] != '.' && s[i] != 'e' && s[i] != 'E' {
      assert DigitOrSeparator(s, i);
    }
  }

  /** Exactly which texts with a point Python's `float` takes: a sign or none, grouped digits before
      or after the point or both, and an exponent or none. */
  lemma FloatMeaning(t: string)
    ensures IsFloatText(t) <==> exists sign, whole, fraction, e :: IsFloatOf(t, sign, whole, fraction, e)
  {
    hide IsFloatText, IsFloatOf;
    if IsFloatText(t) {
      var sign, whole, fraction, e := FloatParts(t);
    }
    if sign, whole, fraction, e :| IsFloatOf(t, sign, whole, fraction, e) {
      FloatJoins(t, sign, whole, fraction, e);
    }
  }

  lemma FloatParts(t: string) returns (sign: string, whole: string, fraction: string, e: string)
    requires IsFloatText(t)
    ensures IsFloatOf(t, sign, whole, fraction, e)
  {
    hide IsMantissa, IsDigitPart, IsExponent, DropSign, ExponentAt, MayBeGrouped;
    var body := DropSign(t);
    var n := ExponentAt(body);
    var m := body[..n];
    e := body[n..];
    sign := SignOf(t);
    assert e != "" ==> e[1..] == body[n + 1..];
    assert body == m + e;
    ExponentMeaning(e);
    PointInMantissa(t, sign, m, e);
    whole, fraction := AroundPoint(m);
    MantissaMeaning(m, whole, fraction);
    FiveParts(t, sign, m, whole, fraction, e);
  }

  lemma AroundPoint(m: string) returns (whole: string, fraction: string)
    requires '.' in m
    ensures m == whole + "." + fraction && '.' !in whole
  {
    FindMeaning(m, '.');
    var i := Find(m, '.').value;
    whole, fraction := m[..i], m[i + 1..];
  }

  lemma FiveParts(t: string, sign: string, m: string, whole: string, fraction: string, e: string)
    requires t == sign + (m + e) && m == whole + "." + fraction
    ensures t == sign + whole + "." + fraction + e
  {
  }

  lemma PointInMantissa(t: string, sign: string, m: string, e: string)
    requires '.' in t && IsSign(sign) && t == sign + (m + e)
    requires e == "" || ((e[0] == 'e' || e[0] == 'E') && IsDigitPart(DropSign(e[1..])))
    ensures '.' in m
  {
    hide IsDigitPart;
    if e != "" {
      NoPointNoMantissaPoint(DropSign(e[1..]));
      var s := SignOf(e[1..]);
      assert e == [e[0]] + (s + DropSign(e[1..]));
      assert '.' !in e;
    }
  }

  /** Where the exponent begins. */
  lemma FloatBody(t: string, sign: string, whole: string, fraction: string, e: string)
    requires IsFloatOf(t, sign, whole, fraction, e)
    ensures var m := whole + "." + fraction;
            DropSign(t) == m + e && ExponentAt(m + e) == |m| && (e == "" || e[0] == 'e' || e[0] == 'E')
  {
    hide IsGrouped, IsExponent, DropSign, ExponentAt;
    var m := whole + "." + fraction;
    ExponentStart(e);
    PlainMantissa(whole, fraction);
    assert t == sign + (m + e) && (m + e)[0] == m[0];
    SignDropped(sign, m + e);
    ExponentIs(m + e, |m|);
  }

  lemma FloatJoins(t: string, sign: string, whole: string, fraction: string, e: string)
    requires IsFloatOf(t, sign, whole, fraction, e)
    ensures IsFloatText(t)
  {
    hide IsMantissa, IsDigitPart, IsGrouped, IsExponent, DropSign, ExponentAt;
    var m := whole + "." + fraction;
    var body := m + e;
    FloatBody(t, sign, whole, fraction, e);
    PlainMantissa(whole, fraction);
    assert body[..|m|] == m && body[|m|..] == e;
    MantissaMeaning(m, whole, fraction);
    ExponentMeaning(e);
    assert e != "" ==> body[|m| + 1..] == e[1..];
    assert t[|sign| + |whole|] == '.';
  }

  lemma ExponentStart(e: string)
    requires IsExponent(e)
    ensures e == "" || e[0] == 'e' || e[0] == 'E'
  {
  }

  lemma PlainMantissa(whole: string, fraction: string)
    requires MayBeGrouped(whole) && MayBeGrouped(fraction)
    ensures '.' !in whole
    ensures var m := whole + "." + fraction;
            m[0] != '+' && m[0] != '-' && forall i :: 0 <= i < |m| ==> m[i] != 'e' && m[i] != 'E'
  {
    hide IsGrouped;
    if whole != "" { GroupedStart(whole); }
    if fraction != "" { GroupedStart(fraction); }
  }

  // ---------------------------------------------------------------- all scalars

  /** The text is the word, each letter in either case. */
  predicate SameWord(t: string, lower: string, upper: string)
    requires |lower| == |upper|
  {
    |t| == |lower| && forall i :: 0 <= i < |t| ==> t[i] == lower[i] || t[i] == upper[i]
  }

  predicate IsNullText(t: string) {
    t == "" || t == "~" || SameWord(t, "null", "NULL")
  }

  predicate InQuotes(t: string, s: string) {
    t == "'" + s + "'" || t == "\"" + s + "\"" || (s == "" && (t == "'" || t == "\""))
  }

  lemma LowerIs(t: string, lower: string, upper: string)
    requires |lower| == |upper|
    requires forall i :: 0 <= i < |lower| ==> 'a' <= lower[i] <= 'z' && upper[i] as int + 32 == lower[i] as int
    ensures Lower(t) == lower <==> SameWord(t, lower, upper)
  {
    if Lower(t) == lower {
      forall i | 0 <= i < |t| ensures t[i] == lower[i] || t[i] == upper[i] {
        assert LowerChar(t[i]) == lower[i];
      }
    }
  }

  lemma QuotedParts(t: string)
    requires IsQuoted(t)
    ensures InQuotes(t, Inner(t))
  {
    assert t[..1] == [t[0]] && t[|t| - 1..] == [t[|t| - 1]];
    if |t| > 1 {
      assert t == t[..1] + t[1..|t| - 1] + t[|t| - 1..];
    }
  }

  lemma InnerOfQuoted(q: string, s: string)
    requires q == "'" || q == "\""
    ensures IsQuoted(q + s + q) && Inner(q + s + q) == s
  {
    var t := q + s + q;
    assert t[..1] == q && t[|t| - 1..] == q;
    assert t[1..|t| - 1] == s;
  }

  lemma QuotesInner(t: string, s: string)
    requires InQuotes(t, s)
    ensures IsQuoted(t) && Inner(t) == s
  {
    hide IsQuoted, Inner;
    InnerOfQuoted("'", s);
    InnerOfQuoted("\"", s);
    LoneQuote();
  }

  lemma LoneQuote()
    ensures IsQuoted("'") && Inner("'") == "" && IsQuoted("\"") && Inner("\"") == ""
  {
  }

  lemma QuotedMeaning(t: string)
    ensures IsQuoted(t) <==> exists s :: InQuotes(t, s)
    ensures forall s :: InQuotes(t, s) ==> IsQuoted(t) && Inner(t) == s
  {
    hide IsQuoted, Inner, InQuotes;
    if IsQuoted(t) {
      QuotedParts(t);
    }
    forall s | InQuotes(t, s) ensures IsQuoted(t) && Inner(t) == s {
      QuotesInner(t, s);
    }
  }

  lemma QuotedIsNoKeyword(t: string)
    requires IsQuoted(t)
    ensures !IsNullText(t) && !SameWord(t, "true", "TRUE") && !SameWord(t, "false", "FALSE")
  {
    QuotedMeaning(t);
    assert t[0] == '\'' || t[0] == '"';
  }

  predicate IsKeyword(t: string) {
    IsNullText(t) || SameWord(t, "true", "TRUE") || SameWord(t, "false", "FALSE")
  }

  /** Neither in quotes, nor a keyword, nor a number. */
  ghost predicate IsPlainText(t: string) {
    && !(exists s :: InQuotes(t, s)) && !IsKeyword(t)
    && !(exists sign, whole, fraction, e :: IsFloatOf(t, sign, whole, fraction, e))
    && !(exists sign, digits :: IsIntText(t, sign, digits))
  }

  /** What every text is read as, once its comment is gone: nothing, `~` and null in any case as null,
      the booleans in any case, then floats, then integers, and any other text as a string, without
      its quotes if it has them. */
  lemma ScalarMeaning(raw: string)
    ensures var t := WithoutComment(raw);
            && (forall s :: InQuotes(t, s) ==> ScalarOf(raw) == Str(s))
            && (IsNullText(t) ==> ScalarOf(raw) == Null)
            && (SameWord(t, "true", "TRUE") ==> ScalarOf(raw) == Bool(true))
            && (SameWord(t, "false", "FALSE") ==> ScalarOf(raw) == Bool(false))
            && (forall sign, whole, fraction, e :: IsFloatOf(t, sign, whole, fraction, e) ==> ScalarOf(raw) == Float(t))
            && (forall sign, digits :: IsIntText(t, sign, digits) ==>
                  ScalarOf(raw) == Int(if sign == "-" then -(ValueOf(digits) as int) else ValueOf(digits)))
            && (IsPlainText(t) ==> ScalarOf(raw) == Str(t))
  {
    hide WithoutComment, IsQuoted, Inner, Lower, IsFloatText, IntOf, IsFloatOf, IsIntText, ValueOf;
    var t := WithoutComment(raw);
    QuotedMeaning(t);
    Keywords(t);
    FloatMeaning(t);
    IntMeaning(t);
    if IsQuoted(t) {
      QuotedIsNoKeyword(t);
    }
    NumberStart(t);
  }

  lemma Keywords(t: string)
    ensures t == "" || Lower(t) == "null" || Lower(t) == "~" <==> IsNullText(t)
    ensures Lower(t) == "true" <==> SameWord(t, "true", "TRUE")
    ensures Lower(t) == "false" <==> SameWord(t, "false", "FALSE")
  {
    hide LowerChar;
    LowerIs(t, "null", "NULL");
    LowerIs(t, "true", "TRUE");
    LowerIs(t, "false", "FALSE");
    assert Lower(t) == "~" <==> t == "~" by { LowerTilde(t); }
  }

  lemma LowerTilde(t: string)
    ensures Lower(t) == "~" <==> t == "~"
  {
    if Lower(t) == "~" {
      assert LowerChar(t[0]) == '~';
    }
  }

  /** Numbers are neither quoted nor keywords, and integers have no point. */
  lemma NumberStart(t: string)
    ensures (exists sign, digits :: IsIntText(t, sign, digits)) ==>
              t != "" && !IsQuoted(t) && !IsKeyword(t) && '.' !in t
    ensures (exists sign, whole, fraction, e :: IsFloatOf(t, sign, whole, fraction, e)) ==>
              t != "" && !IsQuoted(t) && !IsKeyword(t) && '.' in t
  {
    hide IsGrouped, IsExponent;
    if sign, digits :| IsIntText(t, sign, digits) {
      GroupedStart(digits);
      assert t[|t| - 1] == digits[|digits| - 1];
      PlainNumber(t, |t| - 1);
    }
    if sign, whole, fraction, e :| IsFloatOf(t, sign, whole, fraction, e) {
      assert t[|sign| + |whole|] == '.';
      if whole != "" { GroupedStart(whole); }
      assert t[0] == (sign + whole + ".")[0];
      PlainNumber(t, |sign| + |whole|);
    }
  }

  lemma PlainNumber(t: string, i: nat)
    requires i < |t| && ('0' <= t[i] <= '9' || t[i] == '.')
    requires t[0] != '\'' && t[0] != '"'
    ensures !IsQuoted(t) && !IsKeyword(t)
  {
    QuotedMeaning(t);
  }

  // ---------------------------------------------------------------- the float zero

  lemma {:induction false} ZeroDigits(s: string)
    requires forall i :: 0 <= i < |s| ==> '0' <= s[i] <= '9' || s[i] == '_'
    ensures ValueOf(s) == 0 <==> forall i :: 0 <= i < |s| ==> !('1' <= s[i] <= '9')
  {
    if s != "" {
      ZeroDigits(s[..|s| - 1]);
      DigitPosition(s[|s| - 1]);
    }
  }
}
