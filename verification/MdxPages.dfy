/** Whole pages: fences switch escaping off, runs of blank lines collapse to one, and a page is
    written with exactly one trailing newline. */
module MdxPages {
  import opened Text
  import opened Mdx
  import opened MdxSafety

  predicate IsFence(line: string) {
    StartsWith(Strip(line), "```")
  }

  predicate IsBlank(line: string) {
    Strip(line) == ""
  }

  function EscapeLines(lines: seq<string>, inCode: bool): seq<string> {
    if lines == [] then []
    else if IsFence(lines[0]) then [lines[0]] + EscapeLines(lines[1..], !inCode)
    else [if inCode then lines[0] else Escape(lines[0])] + EscapeLines(lines[1..], inCode)
  }

  function Collapse(lines: seq<string>, prevBlank: bool): seq<string> {
    if lines == [] then []
    else if IsBlank(lines[0]) then (if prevBlank then [] else [""]) + Collapse(lines[1..], true)
    else [lines[0]] + Collapse(lines[1..], false)
  }

  function EscapeMdx(text: string): string {
    Join(EscapeLines(Split(text, '\n'), false), "\n")
  }

  function CollapseBlankLines(text: string): string {
    Join(Collapse(Split(text, '\n'), false), "\n")
  }

  function DropNewlines(s: string): string {
    if s != "" && s[|s| - 1] == '\n' then DropNewlines(s[..|s| - 1]) else s
  }

  /** `content.rstrip("\n") + "\n"` after collapsing. */
  function Normalize(text: string): string {
    DropNewlines(CollapseBlankLines(text)) + "\n"
  }

  method EscapeMdxLoop(text: string) returns (r: string)
    ensures r == EscapeMdx(text)
  {
    hide Escape, IsFence, Split, Join, EscapeLines;
    var lines := Split(text, '\n');
    var out: seq<string> := [];
    var inCodeBlock := false;
    assert lines[0..] == lines && out + EscapeLines(lines, false) == EscapeLines(lines, false);
    for i := 0 to |lines|
      invariant out + EscapeLines(lines[i..], inCodeBlock) == EscapeLines(lines, false)
    {
      assert lines[i..][1..] == lines[i + 1..];
      EscapeLinesUnfolds(lines[i..], inCodeBlock);
      var line := lines[i];
      if IsFence(line) {
        Concat(out, [line], EscapeLines(lines[i + 1..], !inCodeBlock));
        inCodeBlock := !inCodeBlock;
        out := out + [line];
      } else if inCodeBlock {
        Concat(out, [line], EscapeLines(lines[i + 1..], inCodeBlock));
        out := out + [line];
      } else {
        var escaped := EscapeLine(line);
        Concat(out, [escaped], EscapeLines(lines[i + 1..], inCodeBlock));
        out := out + [escaped];
      }
    }
    EscapeLinesUnfolds(lines[|lines|..], inCodeBlock);
    assert lines[|lines|..] == [] && out + [] == out;
    r := Join(out, "\n");
  }

  lemma EscapeLinesUnfolds(lines: seq<string>, inCode: bool)
    ensures EscapeLines(lines, inCode)
         == if lines == [] then []
            else [if inCode || IsFence(lines[0]) then lines[0] else Escape(lines[0])]
                 + EscapeLines(lines[1..], if IsFence(lines[0]) then !inCode else inCode)
  {
    hide Escape, IsFence;
  }

  method CollapseBlankLinesLoop(text: string) returns (r: string)
    ensures r == CollapseBlankLines(text)
  {
    hide IsBlank, Split, Join, Collapse;
    var lines := Split(text, '\n');
    var out: seq<string> := [];
    var prevBlank := false;
    assert lines[0..] == lines;
    for i := 0 to |lines|
      invariant out + Collapse(lines[i..], prevBlank) == Collapse(lines, false)
    {
      assert lines[i..][1..] == lines[i + 1..];
      CollapseUnfolds(lines[i..], prevBlank);
      var isBlank := IsBlank(lines[i]);
      if isBlank {
        if prevBlank {
          continue;
        }
        prevBlank := true;
        out := out + [""];
        continue;
      }
      prevBlank := false;
      out := out + [lines[i]];
    }
    CollapseUnfolds(lines[|lines|..], prevBlank);
    assert lines[|lines|..] == [] && out + [] == out;
    r := Join(out, "\n");
  }

  lemma CollapseUnfolds(lines: seq<string>, prevBlank: bool)
    ensures Collapse(lines, prevBlank)
         == if lines == [] then []
            else (if !IsBlank(lines[0]) then [lines[0]] else if prevBlank then [] else [""])
                 + Collapse(lines[1..], IsBlank(lines[0]))
  {
    hide IsBlank;
  }

  // ---------------------------------------------------------------- lines and fences

  lemma {:induction false} LeadOfEscape(s: string)
    ensures Lead(Escape(s)) == Lead(s) && LStrip(Escape(s)) == Escape(LStrip(s))
  {
    hide Escape, EscapeHead;
    EscapeUnfolds(s);
    if s != "" {
      if IsSpace(s[0]) {
        LeadOfEscape(s[1..]);
        SpaceIsCopied(s);
        assert Escape(s)[1..] == Escape(s[1..]);
        assert LStrip(Escape(s)) == LStrip(Escape(s[1..]));
        assert LStrip(s) == LStrip(s[1..]);
      } else {
        EscapeStart(s);
        assert !IsSpace(Escape(s)[0]);
      }
    }
  }

  lemma SpaceIsCopied(s: string)
    requires s != "" && IsSpace(s[0])
    ensures Escape(s) == [s[0]] + Escape(s[1..])
  {
    hide IsAllowedTag, LooksLikeTag;
  }

  lemma FenceIsLeading(line: string)
    ensures IsFence(line) <==> StartsWith(LStrip(line), "```")
  {
    var s := LStrip(line);
    RStripMeaning(s);
    if StartsWith(s, "```") {
      assert s[..3] == "```";
      assert s[2] == s[..3][2];
      RStripKeeps(s, 2);
    }
    if StartsWith(RStrip(s), "```") {
      assert s[..3] == RStrip(s)[..3];
    }
  }

  lemma FenceSurvives(line: string)
    ensures IsFence(Escape(line)) <==> IsFence(line)
  {
    hide Escape, IsFence, EscapeHead;
    FenceIsLeading(line);
    FenceIsLeading(Escape(line));
    LeadOfEscape(line);
    TicksSurvive(LStrip(line));
  }

  lemma TicksSurvive(s: string)
    ensures StartsWith(Escape(s), "```") <==> StartsWith(s, "```")
  {
    hide Escape, EscapeHead;
    EscapeUnfolds(s);
    if s != "" {
      EscapeStart(s);
      ThreeTicks(s);
      ThreeTicks(Escape(s));
      if s[0] == '`' && SpanAt(s).Some? {
        var n := SpanAt(s).value;
        FindMeaning(s[1..], '`');
        assert s[1..][n - 2] == s[n - 1];
        if n == 2 {
          assert Escape(s)[1] == s[1];
          if s[2..] != "" {
            EscapeStart(s[2..]);
            assert Escape(s)[2] == Escape(s[2..])[0];
          } else {
            assert Escape(s[2..]) == "" by { EscapeUnfolds(""); }
          }
        } else {
          assert s[1] == s[1..][..n - 2][0];
          assert Escape(s)[1] == s[1] != '`';
        }
      }
    }
  }

  lemma ThreeTicks(s: string)
    ensures StartsWith(s, "```") <==> |s| > 2 && s[0] == '`' && s[1] == '`' && s[2] == '`'
  {
    if |s| > 2 && s[0] == '`' && s[1] == '`' && s[2] == '`' {
      assert s[..3] == "```";
    }
  }

  lemma BlankSurvives(line: string)
    ensures IsBlank(Escape(line)) <==> IsBlank(line)
    ensures IsBlank(line) ==> Escape(line) == line && !IsFence(line)
  {
    hide Escape, IsFence, Lead, EscapeHead;
    LeadOfEscape(line);
    StripIsTrimmed(line);
    StripIsTrimmed(Escape(line));
    EscapeUnfolds("");
    if IsBlank(line) {
      LeadMeaning(line);
      assert forall i :: 0 <= i < |line| ==> IsCopied(line[i]);
      EscapeCopies(line, "");
      assert line + "" == line && line + Escape("") == line;
      FenceIsLeading(line);
    } else {
      assert Lead(line) < |line|;
      assert LStrip(line) != "";
      EscapeStart(LStrip(line));
    }
  }

  /** Whether line i is copied: a fence, or inside a fenced block. */
  predicate Protected(lines: seq<string>, i: nat, inCode: bool)
    requires i < |lines|
  {
    if i == 0 then inCode || IsFence(lines[0])
    else Protected(lines[1..], i - 1, if IsFence(lines[0]) then !inCode else inCode)
  }

  /** Escaping is line by line: same number of lines, protected lines identical, every other line
      escaped; and the output has the same fences, so it is read with the same protection. */
  lemma {:induction false} EscapedLines(lines: seq<string>, inCode: bool)
    ensures var out := EscapeLines(lines, inCode);
            && |out| == |lines|
            && forall i :: 0 <= i < |lines| ==>
                 && out[i] == (if Protected(lines, i, inCode) then lines[i] else Escape(lines[i]))
                 && Protected(out, i, inCode) == Protected(lines, i, inCode)
                 && IsBlank(out[i]) == IsBlank(lines[i])
  {
    hide Escape, IsFence, IsBlank;
    if lines != [] {
      var next := if IsFence(lines[0]) then !inCode else inCode;
      EscapedLines(lines[1..], next);
      FenceSurvives(lines[0]);
      BlankSurvives(lines[0]);
      var out := EscapeLines(lines, inCode);
      assert out[1..] == EscapeLines(lines[1..], next);
      forall i | 0 <= i < |lines|
        ensures && out[i] == (if Protected(lines, i, inCode) then lines[i] else Escape(lines[i]))
                && Protected(out, i, inCode) == Protected(lines, i, inCode)
                && IsBlank(out[i]) == IsBlank(lines[i])
      {
        if i > 0 {
          assert out[i] == out[1..][i - 1] && lines[i] == lines[1..][i - 1];
        }
      }
    }
  }

  function DecodeLines(lines: seq<string>, inCode: bool): seq<string> {
    if lines == [] then []
    else if IsFence(lines[0]) then [lines[0]] + DecodeLines(lines[1..], !inCode)
    else [if inCode then lines[0] else Decode(lines[0])] + DecodeLines(lines[1..], inCode)
  }

  predicate EntityFree(lines: seq<string>, inCode: bool) {
    lines != [] ==>
      if IsFence(lines[0]) then EntityFree(lines[1..], !inCode)
      else (inCode || !HasEntity(lines[0])) && EntityFree(lines[1..], inCode)
  }

  /** The page can be decoded exactly when no unprotected line has a literal `&lt;` outside spans. */
  lemma {:induction false} DecodePage(lines: seq<string>, inCode: bool)
    ensures DecodeLines(EscapeLines(lines, inCode), inCode) == lines <==> EntityFree(lines, inCode)
  {
    hide Escape, Decode, IsFence, HasEntity;
    if lines != [] {
      var next := if IsFence(lines[0]) then !inCode else inCode;
      DecodePage(lines[1..], next);
      FenceSurvives(lines[0]);
      DecodeRecovers(lines[0]);
      var out := EscapeLines(lines, inCode);
      assert out[1..] == EscapeLines(lines[1..], next);
      var back := DecodeLines(out, inCode);
      assert back[1..] == DecodeLines(out[1..], next);
      assert back == [back[0]] + back[1..];
      assert lines == [lines[0]] + lines[1..];
    }
  }

  // ---------------------------------------------------------------- blank lines

  function NonBlank(lines: seq<string>): seq<string> {
    if lines == [] then []
    else (if IsBlank(lines[0]) then [] else [lines[0]]) + NonBlank(lines[1..])
  }

  /** Blank lines are empty and no two stand next to each other. */
  predicate IsCollapsed(lines: seq<string>) {
    && (forall i :: 0 <= i < |lines| && IsBlank(lines[i]) ==> lines[i] == "")
    && (forall i :: 0 <= i < |lines| - 1 && IsBlank(lines[i]) ==> !IsBlank(lines[i + 1]))
  }

  lemma EmptyIsBlank()
    ensures IsBlank("")
  {
  }

  lemma {:induction false} CollapseKeepsText(lines: seq<string>, prevBlank: bool)
    ensures NonBlank(Collapse(lines, prevBlank)) == NonBlank(lines)
  {
    hide IsBlank;
    EmptyIsBlank();
    if lines != [] {
      var rest := Collapse(lines[1..], IsBlank(lines[0]));
      assert [] + rest == rest;
      CollapseKeepsText(lines[1..], IsBlank(lines[0]));
      if !IsBlank(lines[0]) {
        assert ([lines[0]] + rest)[1..] == rest;
      } else if !prevBlank {
        assert ([""] + rest)[1..] == rest;
      }
    }
  }

  lemma CollapsedCons(head: string, rest: seq<string>)
    requires IsCollapsed(rest)
    requires !IsBlank(head) || (head == "" && (rest != [] ==> !IsBlank(rest[0])))
    ensures IsCollapsed([head] + rest)
  {
    hide IsBlank;
  }

  lemma {:induction false} CollapseSeparates(lines: seq<string>, prevBlank: bool)
    ensures IsCollapsed(Collapse(lines, prevBlank))
    ensures prevBlank && Collapse(lines, prevBlank) != [] ==> !IsBlank(Collapse(lines, prevBlank)[0])
    ensures lines != [] && !prevBlank ==> Collapse(lines, prevBlank) != []
  {
    hide IsBlank, IsCollapsed;
    if lines == [] {
      assert IsCollapsed([]) by { NoLines(); }
    } else {
      var rest := Collapse(lines[1..], IsBlank(lines[0]));
      assert [] + rest == rest;
      CollapseSeparates(lines[1..], IsBlank(lines[0]));
      if !IsBlank(lines[0]) {
        CollapsedCons(lines[0], rest);
      } else if !prevBlank {
        CollapsedCons("", rest);
      }
    }
  }

  lemma NoLines()
    ensures IsCollapsed([])
  {
  }

  /** Collapsing keeps all non-blank lines in order and leaves no two blank lines adjacent. */
  lemma CollapseMeaning(lines: seq<string>)
    ensures NonBlank(Collapse(lines, false)) == NonBlank(lines) && IsCollapsed(Collapse(lines, false))
    ensures lines != [] ==> Collapse(lines, false) != []
  {
    CollapseKeepsText(lines, false);
    CollapseSeparates(lines, false);
  }

  /** A collapsed page is left as it is. */
  lemma {:induction false} CollapseFixes(lines: seq<string>, prevBlank: bool)
    requires IsCollapsed(lines) && (prevBlank && lines != [] ==> !IsBlank(lines[0]))
    ensures Collapse(lines, prevBlank) == lines
  {
    hide IsBlank;
    if lines != [] {
      CollapseFixes(lines[1..], IsBlank(lines[0]));
    }
  }

  lemma {:induction false} LinesCommute(lines: seq<string>, inCode: bool, prevBlank: bool)
    ensures EscapeLines(Collapse(lines, prevBlank), inCode) == Collapse(EscapeLines(lines, inCode), prevBlank)
  {
    hide Escape, IsBlank, IsFence;
    if lines != [] {
      var l := lines[0];
      var next := if IsFence(l) then !inCode else inCode;
      LinesCommute(lines[1..], next, IsBlank(l));
      BlankSurvives(l);
      BlankSurvives("");
      EmptyIsBlank();
      EscapeUnfolds("");
      var rest := Collapse(lines[1..], IsBlank(l));
      assert ([l] + rest)[1..] == rest && ([""] + rest)[1..] == rest && [] + rest == rest;
      var out := EscapeLines(lines, inCode);
      assert out[1..] == EscapeLines(lines[1..], next);
    }
  }

  predicate NewlineFree(lines: seq<string>) {
    forall i :: 0 <= i < |lines| ==> '\n' !in lines[i]
  }

  lemma {:induction false} EscapeNewlineFree(s: string)
    requires '\n' !in s
    ensures '\n' !in Escape(s)
  {
    hide Escape, IsAllowedTag, LooksLikeTag, SpanAt;
    EscapeUnfolds(s);
    if s != "" {
      if s[0] != '`' {
        EscapeNewlineFree(s[1..]);
        assert s[0] in s;
      } else if SpanAt(s).Some? {
        EscapeNewlineFree(s[SpanAt(s).value..]);
      }
    }
  }

  lemma EscapedPageLines(text: string)
    ensures Split(EscapeMdx(text), '\n') == EscapeLines(Split(text, '\n'), false)
  {
    hide Escape, IsFence, IsBlank, Protected;
    var lines := Split(text, '\n');
    EscapedLines(lines, false);
    forall i | 0 <= i < |lines| ensures '\n' !in EscapeLines(lines, false)[i] {
      EscapeNewlineFree(lines[i]);
    }
    SplitJoin(EscapeLines(lines, false), '\n');
  }

  /** The page after escaping: as many lines, fences and fenced lines identical, and every other
      line with its backtick spans intact. Up to an unmatched backtick no tag-like `<` is left there
      and every brace follows a backslash, which escapes it exactly when the line had escaped none
      itself; the whole line is safe exactly when what follows such a backtick was safe too. */
  lemma EscapedPage(text: string)
    ensures var lines, out := Split(text, '\n'), Split(EscapeMdx(text), '\n');
            && |out| == |lines|
            && forall i :: 0 <= i < |lines| ==>
                 && Protected(out, i, false) == Protected(lines, i, false)
                 && (if Protected(lines, i, false) then out[i] == lines[i]
                     else && IsSafe(out[i], false) && Spans(out[i]) == Spans(lines[i])
                          && (IsSafeClosed(out[i], false) <==> IsSafeClosed(Tail(lines[i]), false))
                          && (IsEscaped(out[i], false) <==> NoneEscaped(lines[i], false))
                          && (IsSafeMdx(out[i], false) <==>
                                NoneEscaped(lines[i], false) && IsSafeMdx(Tail(lines[i]), false)))
  {
    hide Escape, IsFence, IsBlank, Protected, IsSafe, IsSafeClosed, Tail, Spans, EscapeMdx, Split, IsEscaped,
         NoneEscaped, IsSafeMdx;
    EscapedPageLines(text);
    var lines := Split(text, '\n');
    EscapedLines(lines, false);
    forall i | 0 <= i < |lines| && !Protected(lines, i, false)
      ensures IsSafe(EscapeLines(lines, false)[i], false)
      ensures Spans(EscapeLines(lines, false)[i]) == Spans(lines[i])
      ensures IsSafeClosed(EscapeLines(lines, false)[i], false) <==> IsSafeClosed(Tail(lines[i]), false)
      ensures IsEscaped(EscapeLines(lines, false)[i], false) <==> NoneEscaped(lines[i], false)
      ensures IsSafeMdx(EscapeLines(lines, false)[i], false)
              <==> NoneEscaped(lines[i], false) && IsSafeMdx(Tail(lines[i]), false)
    {
      BracesAreEscaped(lines[i], false);
      EscapedIsSafeMdx(lines[i], false);
      EscapeIsSafe(lines[i], false);
      EscapeIsSafeClosed(lines[i], false);
      SpansAreKept(lines[i]);
    }
  }

  function DecodeMdx(text: string): string {
    Join(DecodeLines(Split(text, '\n'), false), "\n")
  }

  lemma {:induction false} DecodeLinesShape(lines: seq<string>, inCode: bool)
    requires NewlineFree(lines)
    ensures |DecodeLines(lines, inCode)| == |lines| && NewlineFree(DecodeLines(lines, inCode))
  {
    hide Decode, IsFence;
    if lines != [] {
      DecodeNewlineFree(lines[0]);
      DecodeLinesShape(lines[1..], if IsFence(lines[0]) then !inCode else inCode);
    }
  }

  lemma {:induction false} DecodeNewlineFree(t: string)
    requires '\n' !in t
    ensures '\n' !in Decode(t)
  {
    hide SpanAt;
    if t != "" {
      if t[0] == '`' {
        if SpanAt(t).Some? {
          DecodeNewlineFree(t[SpanAt(t).value..]);
        }
      } else if StartsWith(t, "\\{") || StartsWith(t, "\\}") {
        DecodeNewlineFree(t[2..]);
        assert t[1] in t;
      } else if StartsWith(t, "&lt;") {
        DecodeNewlineFree(t[4..]);
      } else {
        DecodeNewlineFree(t[1..]);
        assert t[0] in t;
      }
    }
  }

  /** Escaping a page is undone by the decoder exactly when no line outside fences has a literal
      `&lt;` outside its spans. */
  lemma DecodeMdxRecovers(text: string)
    ensures DecodeMdx(EscapeMdx(text)) == text <==> EntityFree(Split(text, '\n'), false)
  {
    hide Escape, IsFence, EscapeMdx, Decode, HasEntity, EntityFree;
    var lines := Split(text, '\n');
    var out := EscapeLines(lines, false);
    EscapedPageLines(text);
    DecodePage(lines, false);
    DecodeLinesShape(out, false);
    assert |out| == |lines| by { EscapedLines(lines, false); }
    JoinSplit(text, '\n');
    SplitJoin(DecodeLines(out, false), '\n');
  }

  lemma {:induction false} CollapseNewlineFree(lines: seq<string>, prevBlank: bool)
    requires NewlineFree(lines)
    ensures NewlineFree(Collapse(lines, prevBlank))
  {
    hide IsBlank;
    if lines != [] {
      CollapseNewlineFree(lines[1..], IsBlank(lines[0]));
    }
  }

  lemma CollapsedPageLines(text: string)
    ensures Split(CollapseBlankLines(text), '\n') == Collapse(Split(text, '\n'), false)
  {
    hide IsBlank;
    var lines := Split(text, '\n');
    CollapseNewlineFree(lines, false);
    CollapseMeaning(lines);
    SplitJoin(Collapse(lines, false), '\n');
  }

  /** Escaping and collapsing commute on every text. */
  lemma EscapeAndCollapseCommute(text: string)
    ensures EscapeMdx(CollapseBlankLines(text)) == CollapseBlankLines(EscapeMdx(text))
  {
    EscapedPageLines(text);
    CollapsedPageLines(text);
    LinesCommute(Split(text, '\n'), false, false);
  }

  // ---------------------------------------------------------------- the trailing newline

  /** A collapsed page without its final empty line. */
  function Body(lines: seq<string>): seq<string> {
    if |lines| > 1 && lines[|lines| - 1] == "" then lines[..|lines| - 1] else lines
  }

  lemma JoinLast(lines: seq<string>)
    requires lines != [] && NewlineFree(lines) && (lines[|lines| - 1] != "" || |lines| == 1)
    ensures DropNewlines(Join(lines, "\n")) == Join(lines, "\n")
    ensures var j := Join(lines, "\n"); j != "" ==> j[|j| - 1] != '\n'
  {
    var last := lines[|lines| - 1];
    if |lines| > 1 {
      assert lines == lines[..|lines| - 1] + [last];
      JoinAppend(lines[..|lines| - 1], [last], "\n");
      var j := Join(lines, "\n");
      assert j[|j| - 1] == last[|last| - 1];
      assert last[|last| - 1] in last;
    } else if last != "" {
      assert last[|last| - 1] in last;
    }
  }

  lemma BodyIsCollapsed(lines: seq<string>)
    requires lines != [] && NewlineFree(lines) && IsCollapsed(lines)
    ensures Body(lines) != [] && NewlineFree(Body(lines)) && IsCollapsed(Body(lines))
    ensures Body(lines)[|Body(lines)| - 1] != "" || |Body(lines)| == 1
  {
    hide IsBlank;
    EmptyIsBlank();
    if Body(lines) != lines {
      assert lines[|lines| - 1] == "";
      assert !IsBlank(lines[|lines| - 2]);
    }
  }

  lemma BodyText(lines: seq<string>)
    requires lines != [] && NewlineFree(lines) && IsCollapsed(lines)
    ensures DropNewlines(Join(lines, "\n")) == Join(Body(lines), "\n")
  {
    hide IsBlank, IsCollapsed, Join;
    var body := Body(lines);
    BodyIsCollapsed(lines);
    JoinLast(body);
    if body != lines {
      assert lines == body + [""];
      JoinAppend(body, [""], "\n");
      var j := Join(body, "\n");
      assert Join([""], "\n") == "" by { JoinOne("", "\n"); }
      assert j + "\n" + "" == j + "\n";
      assert (j + "\n")[..|j|] == j;
    }
  }

  lemma BodyOfPage(text: string)
    ensures var lines := Collapse(Split(text, '\n'), false);
            && Body(lines) != [] && NewlineFree(Body(lines)) && IsCollapsed(Body(lines))
            && (Body(lines)[|Body(lines)| - 1] != "" || |Body(lines)| == 1)
            && DropNewlines(CollapseBlankLines(text)) == Join(Body(lines), "\n")
  {
    hide IsBlank, DropNewlines, Join, Body, Collapse, IsCollapsed;
    var all := Split(text, '\n');
    CollapseMeaning(all);
    CollapseNewlineFree(all, false);
    BodyIsCollapsed(Collapse(all, false));
    BodyText(Collapse(all, false));
  }

  /** A normalised page ends in exactly one newline, and normalising again changes nothing. */
  lemma NormalizeIsIdempotent(text: string)
    ensures Normalize(Normalize(text)) == Normalize(text)
    ensures var t := Normalize(text); t[|t| - 1] == '\n' && (|t| > 1 ==> t[|t| - 2] != '\n')
  {
    hide IsBlank, Split, DropNewlines, Join;
    EmptyIsBlank();
    var body := Body(Collapse(Split(text, '\n'), false));
    BodyOfPage(text);
    JoinLast(body);
    var t := Normalize(text);
    assert t == Join(body, "\n") + "\n";
    BodyOfPage(t);
    NormalizedLines(body);
  }

  /** The lines of a normalised page: its body and one empty line, which collapsing keeps or merges. */
  lemma NormalizedLines(body: seq<string>)
    requires body != [] && NewlineFree(body) && IsCollapsed(body) && (body[|body| - 1] != "" || |body| == 1)
    ensures Body(Collapse(Split(Join(body, "\n") + "\n", '\n'), false)) == body
  {
    hide IsBlank, Join, Split, Collapse, IsCollapsed;
    JoinAppend(body, [""], "\n");
    assert Join([""], "\n") == "" by { JoinOne("", "\n"); }
    assert Join(body, "\n") + "\n" + "" == Join(body, "\n") + "\n";
    SplitJoin(body + [""], '\n');
    if body[|body| - 1] != "" {
      CollapsedSnoc(body);
      CollapseFixes(body + [""], false);
      assert (body + [""])[..|body|] == body;
    } else {
      assert body == [""];
      CollapseTwo();
    }
  }

  lemma CollapsedSnoc(body: seq<string>)
    requires body != [] && IsCollapsed(body) && body[|body| - 1] != ""
    ensures IsCollapsed(body + [""])
  {
    hide IsBlank;
    assert !IsBlank(body[|body| - 1]);
  }

  lemma CollapseTwo()
    ensures Collapse([""] + [""], false) == [""]
  {
    hide IsBlank;
    EmptyIsBlank();
    var two := [""] + [""];
    assert two[1..] == [""] && [""][1..] == [];
    assert Collapse([""], true) == [];
  }

  // ---------------------------------------------------------------- in the lines themselves

  /** A fence is three backticks after white space, if any. */
  lemma FenceMeaning(pad: string, rest: string)
    requires forall i :: 0 <= i < |pad| ==> IsSpace(pad[i])
    requires rest != "" ==> !IsSpace(rest[0])
    ensures IsFence(pad + rest) <==> StartsWith(rest, "```")
  {
    hide IsFence;
    FenceIsLeading(pad + rest);
    LeadOfIndented(pad, rest);
  }

  function Fences(lines: seq<string>, i: nat): nat
    requires i <= |lines|
  {
    if i == 0 then 0 else Fences(lines, i - 1) + (if IsFence(lines[i - 1]) then 1 else 0)
  }

  lemma {:induction false} FencesFromTheFront(lines: seq<string>, i: nat)
    requires 0 < i <= |lines|
    ensures Fences(lines, i) == Fences(lines[1..], i - 1) + (if IsFence(lines[0]) then 1 else 0)
  {
    hide IsFence;
    if i > 1 {
      FencesFromTheFront(lines, i - 1);
      assert lines[1..][i - 2] == lines[i - 1];
    }
  }

  /** A line is copied if it is a fence or the number of fences before it is odd. */
  lemma {:induction false} ProtectedMeaning(lines: seq<string>, i: nat, inCode: bool)
    requires i < |lines|
    ensures Protected(lines, i, inCode) <==>
              IsFence(lines[i]) || (Fences(lines, i) + (if inCode then 1 else 0)) % 2 == 1
  {
    hide IsFence;
    if i > 0 {
      ProtectedMeaning(lines[1..], i - 1, if IsFence(lines[0]) then !inCode else inCode);
      FencesFromTheFront(lines, i);
    }
  }

  /** Collapsing leaves every line that is not blank, and what stands before and after it is collapsed
      apart. */
  lemma {:induction false} CollapseAround(a: seq<string>, l: string, b: seq<string>, prevBlank: bool)
    requires !IsBlank(l)
    ensures Collapse(a + [l] + b, prevBlank) == Collapse(a, prevBlank) + [l] + Collapse(b, false)
    decreases |a|
  {
    hide IsBlank, Collapse;
    var all := a + [l] + b;
    CollapseUnfolds(all, prevBlank);
    CollapseUnfolds(a, prevBlank);
    if a == [] {
      assert all[1..] == b;
    } else {
      assert all[1..] == a[1..] + [l] + b;
      CollapseAround(a[1..], l, b, IsBlank(a[0]));
    }
  }

  /** Any number of blank lines becomes one empty line. */
  lemma {:induction false} CollapseBlanks(blanks: seq<string>)
    requires blanks != [] && forall i :: 0 <= i < |blanks| ==> IsBlank(blanks[i])
    ensures Collapse(blanks, false) == [""] && Collapse(blanks, true) == []
  {
    hide IsBlank, Collapse;
    CollapseUnfolds(blanks, false);
    CollapseUnfolds(blanks, true);
    if |blanks| > 1 {
      CollapseBlanks(blanks[1..]);
    } else {
      CollapseUnfolds(blanks[1..], true);
    }
  }

  function Newlines(n: nat): string {
    seq(n, _ => '\n')
  }

  /** Writing a page changes no more than the newlines at the end of the collapsed text. */
  lemma NormalizeMeaning(text: string)
    ensures exists body, n :: CollapseBlankLines(text) == body + Newlines(n) && Normalize(text) == body + "\n"
  {
    var n := DroppedNewlines(CollapseBlankLines(text));
    assert Normalize(text) == DropNewlines(CollapseBlankLines(text)) + "\n";
  }

  lemma {:induction false} DroppedNewlines(s: string) returns (n: nat)
    ensures s == DropNewlines(s) + Newlines(n)
  {
    n := 0;
    if s != "" && s[|s| - 1] == '\n' {
      n := DroppedNewlines(s[..|s| - 1]);
      assert Newlines(n) + "\n" == Newlines(n + 1);
      assert s == s[..|s| - 1] + "\n";
      n := n + 1;
    } else {
      assert Newlines(0) == "";
    }
  }
}
