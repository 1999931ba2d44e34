/** Escaping one line of MDX prose: braces and tag-like `<` are escaped outside backtick spans. A
    decoder recovers the line exactly when it has no literal entity. */
module Mdx {
  import opened Text

  // ---------------------------------------------------------------- one line

  /** Length of the backtick span that opens at the start of s, when it is closed. */
  function SpanAt(s: string): (n: Option<nat>)
    requires s != ""
    ensures n.Some? ==> 2 <= n.value <= |s|
  {
    match Find(s[1..], '`')
    case None => None
    case Some(j) => Some(j + 2)
  }

  const TAG_NAMES := ["Accordion", "/Accordion", "details", "/details", "summary", "/summary", "iframe",
                      "Note", "Warning", "Tip", "/Note", "/Warning", "/Tip", "br", "br/"]

  /** The text starts with `<name` followed by white space or `>`. */
  predicate IsTag(s: string, name: string) {
    StartsWith(s, "<" + name) && |s| > |name| + 1 && (IsSpace(s[|name| + 1]) || s[|name| + 1] == '>')
  }

  /** The allow-listed tags. White space inside `br /` is covered by the entry `br`. */
  predicate IsAllowedTag(s: string) {
    exists i :: 0 <= i < |TAG_NAMES| && IsTag(s, TAG_NAMES[i])
  }

  /** A `<` before a letter with a later `>`. */
  predicate LooksLikeTag(s: string) {
    |s| > 1 && s[0] == '<' && IsLetter(s[1]) && '>' in s
  }

  /** What replaces the first character of s, given all that follows it. */
  function EscapeHead(s: string): string
    requires s != ""
  {
    if s[0] == '{' then "\\{"
    else if s[0] == '}' then "\\}"
    else if s[0] == '<' && !IsAllowedTag(s) && LooksLikeTag(s) then "&lt;"
    else [s[0]]
  }

  function Escape(s: string): string {
    if s == "" then ""
    else if s[0] == '`' then
      match SpanAt(s)
      case None => s
      case Some(n) => s[..n] + Escape(s[n..])
    else EscapeHead(s) + Escape(s[1..])
  }

  lemma EscapeUnfolds(s: string)
    ensures Escape("") == ""
    ensures s != "" ==>
      Escape(s) == if s[0] != '`' then EscapeHead(s) + Escape(s[1..])
                   else if SpanAt(s).None? then s
                   else s[..SpanAt(s).value] + Escape(s[SpanAt(s).value..])
  {
    hide EscapeHead, SpanAt;
  }

  method EscapeLine(line: string) returns (result: string)
    ensures result == Escape(line)
  {
    hide Escape, EscapeHead, SpanAt;
    result := "";
    var i := 0;
    assert line[0..] == line;
    EscapeUnfolds("");
    while i < |line|
      invariant 0 <= i <= |line| && result + Escape(line[i..]) == Escape(line)
    {
      var rest := line[i..];
      EscapeUnfolds(rest);
      assert rest[1..] == line[i + 1..];
      if line[i] == '`' {
        match SpanAt(rest) {
          case None =>
            result := result + rest;
            return;
          case Some(n) =>
            assert rest[n..] == line[i + n..];
            Concat(result, rest[..n], Escape(rest[n..]));
            result := result + rest[..n];
            i := i + n;
        }
      } else {
        var e := EscapeChar(rest);
        Concat(result, e, Escape(rest[1..]));
        result := result + e;
        i := i + 1;
      }
    }
    assert line[i..] == "" && result + "" == result;
  }

  /** The branches of the loop for a character that is not a backtick. */
  method EscapeChar(rest: string) returns (e: string)
    requires rest != ""
    ensures e == EscapeHead(rest)
  {
    hide IsAllowedTag, LooksLikeTag;
    if rest[0] == '{' {
      e := "\\{";
    } else if rest[0] == '}' {
      e := "\\}";
    } else if rest[0] == '<' {
      if IsAllowedTag(rest) {
        e := [rest[0]];
      } else if LooksLikeTag(rest) {
        e := "&lt;";
      } else {
        e := [rest[0]];
      }
    } else {
      e := [rest[0]];
    }
  }

  // ---------------------------------------------------------------- decoding

  /** Undoes the escapes outside backtick spans. */
  function Decode(t: string): string {
    if t == "" then ""
    else if t[0] == '`' then
      match SpanAt(t)
      case None => t
      case Some(n) => t[..n] + Decode(t[n..])
    else if StartsWith(t, "\\{") || StartsWith(t, "\\}") then [t[1]] + Decode(t[2..])
    else if StartsWith(t, "&lt;") then "<" + Decode(t[4..])
    else [t[0]] + Decode(t[1..])
  }

  /** The line with every literal `&lt;` outside spans read as `<`. */
  function ReadEntities(s: string): string {
    if s == "" then ""
    else if s[0] == '`' then
      match SpanAt(s)
      case None => s
      case Some(n) => s[..n] + ReadEntities(s[n..])
    else if StartsWith(s, "&lt;") then "<" + ReadEntities(s[4..])
    else [s[0]] + ReadEntities(s[1..])
  }

  predicate HasEntity(s: string) {
    s != "" &&
    if s[0] == '`' then SpanAt(s).Some? && HasEntity(s[SpanAt(s).value..])
    else StartsWith(s, "&lt;") || HasEntity(s[1..])
  }

  /** A closed span is read the same whatever follows it. */
  lemma SpanIsLocal(s: string, rest: string)
    requires s != "" && s[0] == '`' && SpanAt(s).Some?
    ensures var n := SpanAt(s).value; SpanAt(s[..n] + rest) == Some(n)
  {
    var n := SpanAt(s).value;
    FindMeaning(s[1..], '`');
    var a := s[1..][..n - 2];
    assert s[..n] == "`" + a + "`";
    assert (s[..n] + rest)[1..] == a + "`" + rest;
    var t := a + "`" + rest;
    assert t[..|a|] == a && t[|a|] == '`';
    FindFirst(t, '`', |a|);
  }

  /** Characters that escaping copies and decoding does not look at. */
  predicate IsCopied(c: char) {
    c != '`' && c != '{' && c != '}' && c != '<'
  }

  lemma {:induction false} EscapeCopies(a: string, b: string)
    requires forall i :: 0 <= i < |a| ==> IsCopied(a[i])
    ensures Escape(a + b) == a + Escape(b)
  {
    hide Escape, IsAllowedTag, LooksLikeTag, SpanAt;
    if a == "" {
      assert a + b == b;
    } else {
      EscapeUnfolds(a + b);
      assert (a + b)[1..] == a[1..] + b;
      EscapeCopies(a[1..], b);
    }
  }

  lemma EscapeStart(s: string)
    requires s != ""
    ensures Escape(s) != ""
    ensures IsCopied(s[0]) || s[0] == '`' ==> Escape(s)[0] == s[0]
    ensures !IsCopied(s[0]) && s[0] != '`' ==> Escape(s)[0] == '\\' || Escape(s)[0] == '<' || Escape(s)[0] == '&'
  {
    hide IsAllowedTag, LooksLikeTag;
  }

  /** Nothing but the literal text starts an escape: if the output starts with copied characters, so does the input. */
  lemma {:induction false} EscapeReflects(s: string, a: string)
    requires (forall i :: 0 <= i < |a| ==> IsCopied(a[i]) && a[i] != '\\' && a[i] != '&') && StartsWith(Escape(s), a)
    ensures StartsWith(s, a)
  {
    hide IsAllowedTag, LooksLikeTag, SpanAt;
    if a != "" {
      assert s != "";
      EscapeStart(s);
      assert Escape(s)[0] == a[0];
      assert s[0] == a[0];
      assert Escape(s) == [s[0]] + Escape(s[1..]);
      assert Escape(s)[1..] == Escape(s[1..]);
      assert StartsWith(Escape(s[1..]), a[1..]) by {
        assert Escape(s)[..|a|][1..] == Escape(s)[1..][..|a| - 1];
      }
      EscapeReflects(s[1..], a[1..]);
      assert s[..|a|] == [s[0]] + s[1..][..|a| - 1];
    }
  }

  lemma {:induction false} DecodeEscape(s: string)
    ensures Decode(Escape(s)) == ReadEntities(s)
  {
    hide IsAllowedTag, LooksLikeTag, SpanAt;
    if s != "" {
      if s[0] == '`' {
        if SpanAt(s).Some? {
          var n := SpanAt(s).value;
          DecodeEscape(s[n..]);
          SpanIsLocal(s, Escape(s[n..]));
          assert Escape(s)[..n] == s[..n] && Escape(s)[n..] == Escape(s[n..]);
        }
      } else if StartsWith(s, "&lt;") {
        assert s == "&lt;" + s[4..];
        EscapeCopies("&lt;", s[4..]);
        DecodeEscape(s[4..]);
        assert Escape(s)[4..] == Escape(s[4..]);
      } else {
        DecodeEscape(s[1..]);
        DecodeHead(s);
      }
    }
  }

  lemma DecodeHead(s: string)
    requires s != "" && s[0] != '`' && !StartsWith(s, "&lt;")
    ensures Decode(Escape(s)) == [s[0]] + Decode(Escape(s[1..]))
  {
    hide Escape, IsAllowedTag, LooksLikeTag, SpanAt;
    EscapeUnfolds(s);
    var h, t := EscapeHead(s), Escape(s[1..]);
    assert Escape(s) == h + t;
    if h == "&lt;" {
      assert (h + t)[4..] == t;
    } else if |h| == 2 {
      assert (h + t)[2..] == t;
    } else {
      assert (h + t)[1..] == t;
      if s[0] == '\\' && t != "" {
        EscapeStart(s[1..]);
      }
      EntitySplit(h + t);
      EntitySplit(s);
      if StartsWith(t, "lt;") {
        EscapeReflects(s[1..], "lt;");
      }
    }
  }

  lemma EntitySplit(s: string)
    requires s != ""
    ensures StartsWith(s, "&lt;") <==> s[0] == '&' && StartsWith(s[1..], "lt;")
  {
    if s[0] == '&' && StartsWith(s[1..], "lt;") {
      assert s[..4] == [s[0]] + s[1..][..3];
    }
    if StartsWith(s, "&lt;") {
      assert s[1..][..3] == s[..4][1..];
    }
  }

  lemma {:induction false} EntitiesShrink(s: string)
    ensures |ReadEntities(s)| <= |s|
    ensures HasEntity(s) ==> |ReadEntities(s)| < |s|
    ensures !HasEntity(s) ==> ReadEntities(s) == s
  {
    hide SpanAt;
    if s != "" {
      if s[0] == '`' {
        if SpanAt(s).Some? {
          EntitiesShrink(s[SpanAt(s).value..]);
        }
      } else if StartsWith(s, "&lt;") {
        EntitiesShrink(s[4..]);
      } else {
        EntitiesShrink(s[1..]);
      }
    }
  }

  /** The decoder recovers a line exactly when it has no literal `&lt;` outside spans. */
  lemma DecodeRecovers(s: string)
    ensures Decode(Escape(s)) == s <==> !HasEntity(s)
  {
    DecodeEscape(s);
    EntitiesShrink(s);
  }
}
