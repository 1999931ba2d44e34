/** What escaping does to each character of a line, and which tags it leaves alone, written out as
    in the regular expressions. */
module MdxTags {
  import opened Text
  import opened Mdx

  /** `Accordion|/Accordion|details|/details|summary|/summary|iframe|Note|Warning|Tip|/Note|/Warning|/Tip` */
  predicate IsTagName(name: string) {
    || name == "Accordion" || name == "/Accordion" || name == "details" || name == "/details"
    || name == "summary" || name == "/summary" || name == "iframe" || name == "Note" || name == "Warning"
    || name == "Tip" || name == "/Note" || name == "/Warning" || name == "/Tip"
  }

  /** `br`, white space and a slash, the last two optional. */
  predicate IsBreak(name: string, space: string) {
    (forall i :: 0 <= i < |space| ==> IsSpace(space[i])) && (name == "br" + space || name == "br" + space + "/")
  }

  predicate IsTagOf(s: string, name: string, end: char) {
    (IsSpace(end) || end == '>') && "<" + name + [end] <= s
  }

  /** The expression matches: a name or a line break, and then white space or `>`. */
  ghost predicate MatchesTag(s: string) {
    exists name, end :: IsTagOf(s, name, end) && (IsTagName(name) || exists space :: IsBreak(name, space))
  }

  lemma TagIsTagOf(s: string, name: string)
    ensures IsTag(s, name) <==> exists end :: IsTagOf(s, name, end)
  {
    var n := |name| + 1;
    if IsTag(s, name) {
      assert s[..n + 1] == s[..n] + [s[n]];
      assert IsTagOf(s, name, s[n]);
    }
    if end :| IsTagOf(s, name, end) {
      var t := "<" + name + [end];
      assert s[..n + 1] == t && t[..n] == "<" + name && t[n] == end;
      assert s[..n] == t[..n] && s[n] == t[n];
    }
  }

  predicate IsListed(name: string) {
    IsTagName(name) || name == "br" || name == "br/"
  }

  lemma NameAt(i: nat)
    requires i < |TAG_NAMES|
    ensures IsListed(TAG_NAMES[i])
  {
  }

  lemma PlaceOf(name: string) returns (i: nat)
    requires IsListed(name)
    ensures i < |TAG_NAMES| && TAG_NAMES[i] == name
  {
    i := if name == "Accordion" then 0 else
         if name == "/Accordion" then 1 else
         if name == "details" then 2 else
         if name == "/details" then 3 else
         if name == "summary" then 4 else
         if name == "/summary" then 5 else
         if name == "iframe" then 6 else
         if name == "Note" then 7 else
         if name == "Warning" then 8 else
         if name == "Tip" then 9 else
         if name == "/Note" then 10 else
         if name == "/Warning" then 11 else
         if name == "/Tip" then 12 else
         if name == "br" then 13 else 14;
  }

  lemma AllowedMeaning(s: string)
    ensures IsAllowedTag(s) <==> exists name :: IsListed(name) && IsTag(s, name)
  {
    hide IsTag, IsListed;
    if IsAllowedTag(s) {
      var i :| 0 <= i < |TAG_NAMES| && IsTag(s, TAG_NAMES[i]);
      NameAt(i);
    }
    if name :| IsListed(name) && IsTag(s, name) {
      var i := PlaceOf(name);
    }
  }

  /** White space and a slash after `br` are allowed by the plain names too. */
  lemma BreakIsTag(s: string, name: string, space: string, end: char)
    requires IsBreak(name, space) && IsTagOf(s, name, end)
    ensures IsTagOf(s, "br", if space != "" then space[0] else end) || IsTagOf(s, "br/", end)
  {
    var t := "<" + name + [end];
    if space != "" {
      assert t == "<br" + [space[0]] + t[4..];
      assert "<" + "br" + [space[0]] == t[..4] == s[..4];
    } else if name == "br" + space {
      assert name == "br";
    } else {
      assert name == "br/";
    }
  }

  /** The allow-listed tags are exactly those that the expression matches. */
  lemma TagMeaning(s: string)
    ensures IsAllowedTag(s) <==> MatchesTag(s)
  {
    hide IsAllowedTag, IsTag, IsTagOf, IsTagName, IsBreak;
    AllowedMeaning(s);
    forall name ensures IsTag(s, name) <==> exists end :: IsTagOf(s, name, end) {
      TagIsTagOf(s, name);
    }
    PlainBreaks();
    if IsAllowedTag(s) {
      var name :| IsListed(name) && IsTag(s, name);
      var end :| IsTagOf(s, name, end);
      assert IsTagName(name) || exists space :: IsBreak(name, space);
    }
    if MatchesTag(s) {
      var name, end :| IsTagOf(s, name, end) && (IsTagName(name) || exists space :: IsBreak(name, space));
      if !IsTagName(name) {
        var space :| IsBreak(name, space);
        BreakIsTag(s, name, space, end);
        assert IsTag(s, "br") || IsTag(s, "br/");
        assert IsListed("br") && IsListed("br/");
      } else {
        assert IsListed(name) && IsTag(s, name);
      }
    }
  }

  lemma PlainBreaks()
    ensures IsBreak("br", "") && IsBreak("br/", "")
  {
  }

  // ---------------------------------------------------------------- the characters of a line

  predicate IsTagLetter(c: char) {
    'a' <= c <= 'z' || 'A' <= c <= 'Z'
  }

  /** What becomes of a `<`: an entity, if a letter follows, a `>` comes later, and it opens no
      allow-listed tag. */
  lemma AngleMeaning(s: string)
    ensures var isTagLike := s != "" && IsTagLetter(s[0]) && '>' in s;
            Escape("<" + s) == (if isTagLike && !MatchesTag("<" + s) then "&lt;" else "<") + Escape(s)
  {
    hide IsAllowedTag, MatchesTag, Escape;
    var t := "<" + s;
    assert t[0] == '<' && t[1..] == s;
    EscapeUnfolds(t);
    TagMeaning(t);
  }

  /** What becomes of every other character: a backslash before a brace, and nothing else. */
  lemma CharacterMeaning(c: char, s: string)
    requires c != '<' && c != '`'
    ensures Escape([c] + s) == (if c == '{' || c == '}' then "\\" + [c] else [c]) + Escape(s)
  {
    hide IsAllowedTag, LooksLikeTag, Escape;
    var t := [c] + s;
    assert t[0] == c && t[1..] == s;
    EscapeUnfolds(t);
  }

  /** What becomes of a span: nothing; and nothing after a backtick without a partner. */
  lemma SpanMeaning(a: string, s: string)
    requires '`' !in a
    ensures Escape("`" + a + "`" + s) == "`" + a + "`" + Escape(s)
    ensures Escape("`" + a) == "`" + a
    ensures Escape("") == ""
  {
    hide EscapeHead, Escape;
    var t := "`" + a + "`" + s;
    assert t[1..] == a + "`" + s;
    assert (a + "`" + s)[..|a|] == a && (a + "`" + s)[|a|] == '`';
    FindFirst(t[1..], '`', |a|);
    assert t[|a| + 2..] == s && t[..|a| + 2] == "`" + a + "`";
    EscapeUnfolds(t);
    var u := "`" + a;
    assert u[1..] == a;
    FindMeaning(a, '`');
    EscapeUnfolds(u);
  }
}
