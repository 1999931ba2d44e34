/** What escaping guarantees about the escaped line. Outside backtick spans no tag-like `<` is left
    and every brace directly follows a backslash; that backslash escapes the brace exactly when the
    line escaped none itself. The spans are untouched. */
module MdxSafety {
  import opened Text
  import opened Mdx

  /** Outside spans every brace directly follows a backslash, whatever stands before that, and no
      `<letter` with a later `>` remains unless it is an allow-listed tag. */
  predicate IsSafe(t: string, afterBackslash: bool) {
    t != "" ==>
      if t[0] == '`' then SpanAt(t).Some? ==> IsSafe(t[SpanAt(t).value..], false)
      else
        && (t[0] == '{' || t[0] == '}' ==> afterBackslash)
        && (LooksLikeTag(t) ==> IsAllowedTag(t))
        && IsSafe(t[1..], t[0] == '\\')
  }

  /** The backtick spans in order; an unmatched backtick opens a last span to the end of the line. */
  function Spans(s: string): seq<string> {
    if s == "" then []
    else if s[0] == '`' then
      match SpanAt(s)
      case None => [s]
      case Some(n) => [s[..n]] + Spans(s[n..])
    else Spans(s[1..])
  }

  lemma {:induction false} CloserSurvives(s: string)
    ensures '>' in Escape(s) <==> '>' in s
  {
    hide IsAllowedTag, LooksLikeTag, SpanAt, Escape;
    EscapeUnfolds(s);
    if s != "" {
      if s[0] != '`' {
        CloserSurvives(s[1..]);
        HeadCloser(s);
        assert s == [s[0]] + s[1..];
      } else if SpanAt(s).Some? {
        var n := SpanAt(s).value;
        CloserSurvives(s[n..]);
        assert s == s[..n] + s[n..];
      }
    }
  }

  lemma HeadCloser(s: string)
    requires s != ""
    ensures '>' in EscapeHead(s) <==> s[0] == '>'
  {
    hide IsAllowedTag, LooksLikeTag;
  }

  lemma TagNamesAreCopied(i: nat, k: nat)
    requires i < |TAG_NAMES| && k < |TAG_NAMES[i]|
    ensures IsCopied(TAG_NAMES[i][k])
  {
  }

  lemma TagSurvives(s: string)
    requires IsAllowedTag(s)
    ensures IsAllowedTag(Escape(s))
  {
    hide Escape, IsTag;
    var i :| 0 <= i < |TAG_NAMES| && IsTag(s, TAG_NAMES[i]);
    forall k | 0 <= k < |TAG_NAMES[i]| ensures IsCopied(TAG_NAMES[i][k]) {
      TagNamesAreCopied(i, k);
    }
    NamedTagSurvives(s, TAG_NAMES[i]);
  }

  lemma NamedTagSurvives(s: string, name: string)
    requires IsTag(s, name) && IsAllowedTag(s) && forall k :: 0 <= k < |name| ==> IsCopied(name[k])
    ensures IsTag(Escape(s), name)
  {
    hide Escape, IsAllowedTag, LooksLikeTag, SpanAt;
    var n := |name|;
    var copied, rest := s[1..n + 2], s[n + 2..];
    assert s[..n + 1] == "<" + name;
    assert s[..n + 1][1..] == name && copied == name + [s[n + 1]];
    assert s[1..] == copied + rest;
    EscapeCopies(copied, rest);
    EscapeUnfolds(s);
    assert Escape(s) == "<" + copied + Escape(rest);
    assert Escape(s)[..n + 1] == "<" + name && Escape(s)[n + 1] == s[n + 1];
  }

  /** A kept `<` is harmless in the output for the reason it was harmless in the input. */
  lemma KeptAngleIsSafe(s: string)
    requires s != "" && s[0] == '<' && EscapeHead(s) == "<"
    ensures LooksLikeTag(Escape(s)) ==> IsAllowedTag(Escape(s))
  {
    hide Escape, IsAllowedTag;
    EscapeUnfolds(s);
    if IsAllowedTag(s) {
      TagSurvives(s);
    } else {
      CloserSurvives(s);
      assert Escape(s)[1..] == Escape(s[1..]);
      if |Escape(s)| > 1 {
        assert s[1..] != "";
        EscapeStart(s[1..]);
      }
    }
  }

  /** The one-character property of an escaped line; whether the backslash before a brace escapes
      it is the matter of BracesAreEscaped. */
  lemma {:induction false} EscapeIsSafe(s: string, afterBackslash: bool)
    ensures IsSafe(Escape(s), afterBackslash)
  {
    hide Escape, IsAllowedTag, SpanAt, LooksLikeTag;
    EscapeUnfolds(s);
    if s != "" {
      if s[0] == '`' {
        if SpanAt(s).Some? {
          var n := SpanAt(s).value;
          var t := Escape(s[n..]);
          SpanIsLocal(s, t);
          assert (s[..n] + t)[n..] == t;
          EscapeIsSafe(s[n..], false);
        }
      } else {
        var h, t := EscapeHead(s), Escape(s[1..]);
        if h == "<" {
          KeptAngleIsSafe(s);
          assert (h + t)[1..] == t;
          EscapeIsSafe(s[1..], false);
        } else if |h| == 1 {
          assert (h + t)[1..] == t;
          NoAngleNoTag(h + t);
          EscapeIsSafe(s[1..], s[0] == '\\');
        } else if |h| == 2 {
          EscapeIsSafe(s[1..], false);
          SafeBrace(h, t);
        } else {
          EscapeIsSafe(s[1..], false);
          SafeEntity(t);
        }
      }
    }
  }

  lemma NoAngleNoTag(t: string)
    requires t != "" && t[0] != '<'
    ensures !LooksLikeTag(t)
  {
  }

  lemma SafeBrace(h: string, t: string)
    requires (h == "\\{" || h == "\\}") && IsSafe(t, false)
    ensures IsSafe(h + t, false) && IsSafe(h + t, true)
  {
    hide IsAllowedTag, SpanAt;
    assert (h + t)[1..] == h[1..] + t;
    assert (h[1..] + t)[1..] == t;
    assert IsSafe(h[1..] + t, true);
  }

  lemma SafeEntity(t: string)
    requires IsSafe(t, false)
    ensures IsSafe("&lt;" + t, false) && IsSafe("&lt;" + t, true)
  {
    hide IsAllowedTag, SpanAt;
    assert (";" + t)[1..] == t;
    assert IsSafe(";" + t, false);
    assert ("t;" + t)[1..] == ";" + t;
    assert IsSafe("t;" + t, false);
    assert ("lt;" + t)[1..] == "t;" + t;
    assert IsSafe("lt;" + t, false);
    assert ("&lt;" + t)[1..] == "lt;" + t;
  }

  lemma {:induction false} SpansAreKept(s: string)
    ensures Spans(Escape(s)) == Spans(s)
  {
    hide Escape, IsAllowedTag, SpanAt, LooksLikeTag;
    EscapeUnfolds(s);
    if s != "" {
      if s[0] == '`' {
        if SpanAt(s).Some? {
          var n := SpanAt(s).value;
          var t := Escape(s[n..]);
          SpanIsLocal(s, t);
          assert (s[..n] + t)[n..] == t && (s[..n] + t)[..n] == s[..n];
          SpansAreKept(s[n..]);
        }
      } else {
        SpansAreKept(s[1..]);
        SpansSkip(EscapeHead(s), Escape(s[1..]));
      }
    }
  }

  lemma {:induction false} SpansSkip(h: string, t: string)
    requires '`' !in h
    ensures Spans(h + t) == Spans(t)
  {
    if h == "" {
      assert h + t == t;
    } else {
      assert (h + t)[1..] == h[1..] + t;
      SpansSkip(h[1..], t);
    }
  }

  /** Outside spans there is a brace, or a tag-like `<` that is not an allow-listed tag. */
  predicate NeedsEscape(s: string) {
    s != "" &&
    if s[0] == '`' then SpanAt(s).Some? && NeedsEscape(s[SpanAt(s).value..])
    else s[0] == '{' || s[0] == '}' || (LooksLikeTag(s) && !IsAllowedTag(s)) || NeedsEscape(s[1..])
  }

  /** Escaping changes exactly the lines that need it, and then makes them longer. */
  lemma {:induction false} EscapeFixes(s: string)
    ensures !NeedsEscape(s) ==> Escape(s) == s
    ensures NeedsEscape(s) ==> |Escape(s)| > |s|
  {
    hide Escape, IsAllowedTag, SpanAt;
    EscapeUnfolds(s);
    if s != "" {
      if s[0] != '`' {
        EscapeFixes(s[1..]);
        assert s == [s[0]] + s[1..];
      } else if SpanAt(s).Some? {
        var n := SpanAt(s).value;
        EscapeFixes(s[n..]);
        assert s == s[..n] + s[n..];
      }
    }
  }

  // ---------------------------------------------------------------- unmatched backticks

  /** The line from its unmatched backtick on, if it has one. */
  function Tail(s: string): string {
    if s == "" then ""
    else if s[0] == '`' then
      match SpanAt(s)
      case None => s
      case Some(n) => Tail(s[n..])
    else Tail(s[1..])
  }

  /** Like IsSafe, but only closed spans are exempt. */
  predicate IsSafeClosed(t: string, afterBackslash: bool) {
    t != "" ==>
      if t[0] == '`' && SpanAt(t).Some? then IsSafeClosed(t[SpanAt(t).value..], false)
      else
        && (t[0] == '{' || t[0] == '}' ==> afterBackslash)
        && (LooksLikeTag(t) ==> IsAllowedTag(t))
        && IsSafeClosed(t[1..], t[0] == '\\')
  }

  lemma ClosedAfterBrace(h: string, t: string, afterBackslash: bool)
    requires h == "\\{" || h == "\\}"
    ensures IsSafeClosed(h + t, afterBackslash) <==> IsSafeClosed(t, false)
  {
    hide IsAllowedTag, SpanAt;
    assert (h + t)[1..] == h[1..] + t;
    assert (h[1..] + t)[1..] == t;
    assert IsSafeClosed(h[1..] + t, true) <==> IsSafeClosed(t, false);
  }

  lemma ClosedAfterEntity(t: string, afterBackslash: bool)
    ensures IsSafeClosed("&lt;" + t, afterBackslash) <==> IsSafeClosed(t, false)
  {
    hide IsAllowedTag, SpanAt;
    assert (";" + t)[1..] == t;
    assert IsSafeClosed(";" + t, false) <==> IsSafeClosed(t, false);
    assert ("t;" + t)[1..] == ";" + t;
    assert IsSafeClosed("t;" + t, false) <==> IsSafeClosed(";" + t, false);
    assert ("lt;" + t)[1..] == "t;" + t;
    assert IsSafeClosed("lt;" + t, false) <==> IsSafeClosed("t;" + t, false);
    assert ("&lt;" + t)[1..] == "lt;" + t;
  }

  lemma ClosedAfterTick(t: string, a: bool, b: bool)
    requires t != "" && t[0] == '`'
    ensures IsSafeClosed(t, a) == IsSafeClosed(t, b)
  {
  }

  /** An escaped line has the one-character property outside its closed spans exactly when the part
      that an unmatched backtick leaves unescaped has it. */
  lemma {:induction false} EscapeIsSafeClosed(s: string, afterBackslash: bool)
    ensures IsSafeClosed(Escape(s), afterBackslash) <==> IsSafeClosed(Tail(s), false)
  {
    hide Escape, IsAllowedTag, SpanAt, LooksLikeTag;
    EscapeUnfolds(s);
    if s != "" {
      if s[0] == '`' {
        if SpanAt(s).Some? {
          var n := SpanAt(s).value;
          var t := Escape(s[n..]);
          SpanIsLocal(s, t);
          assert (s[..n] + t)[n..] == t && (s[..n] + t)[0] == s[0];
          EscapeIsSafeClosed(s[n..], false);
        } else {
          ClosedAfterTick(s, afterBackslash, false);
        }
      } else {
        var h, t := EscapeHead(s), Escape(s[1..]);
        if h == "<" {
          KeptAngleIsSafe(s);
          assert (h + t)[1..] == t;
          EscapeIsSafeClosed(s[1..], false);
        } else if |h| == 1 {
          assert (h + t)[1..] == t;
          NoAngleNoTag(h + t);
          EscapeIsSafeClosed(s[1..], s[0] == '\\');
        } else if |h| == 2 {
          EscapeIsSafeClosed(s[1..], false);
          ClosedAfterBrace(h, t, afterBackslash);
        } else {
          EscapeIsSafeClosed(s[1..], false);
          ClosedAfterEntity(t, afterBackslash);
        }
      }
    }
  }

  // ---------------------------------------------------------------- backslashes that are escaped themselves

  predicate IsBrace(c: char) {
    c == '{' || c == '}'
  }

  /** Outside spans every brace has an odd number of backslashes directly before it; `odd` says it
      of those before t. */
  predicate IsEscaped(t: string, odd: bool) {
    t != "" ==>
      if t[0] == '`' then SpanAt(t).Some? ==> IsEscaped(t[SpanAt(t).value..], false)
      else (IsBrace(t[0]) ==> odd) && IsEscaped(t[1..], t[0] == '\\' && !odd)
  }

  /** Outside spans no brace has an odd number of backslashes directly before it. */
  predicate NoneEscaped(s: string, odd: bool) {
    s != "" ==>
      if s[0] == '`' then SpanAt(s).Some? ==> NoneEscaped(s[SpanAt(s).value..], false)
      else (IsBrace(s[0]) ==> !odd) && NoneEscaped(s[1..], s[0] == '\\' && !odd)
  }

  /** What the documentation needs of a line: only closed spans are exempt, every other brace is
      escaped, and every tag-like `<` opens an allow-listed tag. */
  predicate IsSafeMdx(t: string, odd: bool) {
    t != "" ==>
      if t[0] == '`' && SpanAt(t).Some? then IsSafeMdx(t[SpanAt(t).value..], false)
      else
        && (IsBrace(t[0]) ==> odd)
        && (LooksLikeTag(t) ==> IsAllowedTag(t))
        && IsSafeMdx(t[1..], t[0] == '\\' && !odd)
  }

  lemma EscapedBrace(h: string, t: string, odd: bool)
    requires h == "\\{" || h == "\\}"
    ensures IsEscaped(h + t, odd) <==> !odd && IsEscaped(t, false)
    ensures IsSafeMdx(h + t, odd) <==> !odd && IsSafeMdx(t, false)
  {
    hide IsAllowedTag, SpanAt;
    assert (h + t)[1..] == h[1..] + t;
    assert (h[1..] + t)[1..] == t;
    assert IsEscaped(h[1..] + t, !odd) <==> !odd && IsEscaped(t, false);
    assert IsSafeMdx(h[1..] + t, !odd) <==> !odd && IsSafeMdx(t, false);
  }

  /** A character that is no brace, backslash or tag hands the rest on. */
  lemma PlainHead(t: string, odd: bool)
    requires t != "" && t[0] != '`' && !IsBrace(t[0]) && t[0] != '\\'
    ensures IsEscaped(t, odd) == IsEscaped(t[1..], false)
    ensures t[0] != '<' ==> IsSafeMdx(t, odd) == IsSafeMdx(t[1..], false)
  {
    hide IsAllowedTag, SpanAt;
  }

  lemma EscapedEntity(t: string, odd: bool)
    ensures IsEscaped("&lt;" + t, odd) <==> IsEscaped(t, false)
    ensures IsSafeMdx("&lt;" + t, odd) <==> IsSafeMdx(t, false)
  {
    hide IsEscaped, IsSafeMdx;
    assert (";" + t)[1..] == t && ("t;" + t)[1..] == ";" + t;
    assert ("lt;" + t)[1..] == "t;" + t && ("&lt;" + t)[1..] == "lt;" + t;
    PlainHead(";" + t, false);
    PlainHead("t;" + t, false);
    PlainHead("lt;" + t, false);
    PlainHead("&lt;" + t, odd);
  }

  /** Escaping escapes every brace outside spans exactly when the line had escaped none of them
      itself: on a brace that was escaped already, the two backslashes cancel. */
  lemma {:induction false} BracesAreEscaped(s: string, odd: bool)
    ensures IsEscaped(Escape(s), odd) <==> NoneEscaped(s, odd)
  {
    hide Escape, IsAllowedTag, SpanAt, LooksLikeTag;
    EscapeUnfolds(s);
    if s != "" {
      if s[0] == '`' {
        if SpanAt(s).Some? {
          var n := SpanAt(s).value;
          var t := Escape(s[n..]);
          SpanIsLocal(s, t);
          assert (s[..n] + t)[n..] == t && (s[..n] + t)[0] == s[0];
          BracesAreEscaped(s[n..], false);
        }
      } else {
        var h, t := EscapeHead(s), Escape(s[1..]);
        BracesAreEscaped(s[1..], s[0] == '\\' && !odd);
        if |h| == 1 {
          assert (h + t)[1..] == t;
        } else if |h| == 2 {
          EscapedBrace(h, t, odd);
        } else {
          EscapedEntity(t, odd);
        }
      }
    }
  }

  lemma AfterTick(t: string, a: bool, b: bool)
    requires t != "" && t[0] == '`'
    ensures IsSafeMdx(t, a) == IsSafeMdx(t, b)
  {
  }

  /** Exactly when the escaped line is safe: the line had escaped no brace outside spans itself, and
      the part that an unmatched backtick leaves unescaped was safe already. */
  lemma {:induction false} EscapedIsSafeMdx(s: string, odd: bool)
    ensures IsSafeMdx(Escape(s), odd) <==> NoneEscaped(s, odd) && IsSafeMdx(Tail(s), false)
  {
    hide Escape, IsAllowedTag, SpanAt, LooksLikeTag;
    EscapeUnfolds(s);
    if s != "" {
      if s[0] == '`' {
        if SpanAt(s).Some? {
          var n := SpanAt(s).value;
          var t := Escape(s[n..]);
          SpanIsLocal(s, t);
          assert (s[..n] + t)[n..] == t && (s[..n] + t)[0] == s[0];
          EscapedIsSafeMdx(s[n..], false);
        } else {
          AfterTick(s, odd, false);
        }
      } else {
        var h, t := EscapeHead(s), Escape(s[1..]);
        EscapedIsSafeMdx(s[1..], s[0] == '\\' && !odd);
        if h == "<" {
          KeptAngleIsSafe(s);
          assert (h + t)[1..] == t;
        } else if |h| == 1 {
          assert (h + t)[1..] == t;
          NoAngleNoTag(h + t);
        } else if |h| == 2 {
          EscapedBrace(h, t, odd);
        } else {
          EscapedEntity(t, odd);
        }
      }
    }
  }

  /** A brace that was escaped already comes out bare, after an escaped backslash. It still has the
      one-character property. */
  lemma EscapedBraceIsBared()
    ensures Escape("\\{") == "\\\\{"
    ensures IsSafe("\\\\{", false) && !IsEscaped("\\\\{", false) && !IsSafeMdx("\\\\{", false)
  {
    var s := "\\{";
    assert s[1..] == "{" && s[1..][1..] == "";
    assert Escape("{") == "\\{" + Escape("");
    assert Escape(s) == "\\" + Escape("{");
    EscapeIsSafe(s, false);
    BracesAreEscaped(s, false);
    EscapedIsSafeMdx(s, false);
    assert !NoneEscaped("{", true);
  }

  /** A line that stays unsafe: the brace after an unmatched backtick is not escaped. */
  lemma UnmatchedBacktickIsUnsafe()
    ensures Escape("` {") == "` {" && !IsSafeClosed(Escape("` {"), false)
  {
    var s := "` {";
    assert s[1..] == " {" && s[1..][1..] == "{" && s[1..][1..][1..] == "";
    FindMeaning(s[1..], '`');
    assert SpanAt(s).None?;
    assert !IsSafeClosed("{", false);
    assert !IsSafeClosed(" {", false);
  }
}
