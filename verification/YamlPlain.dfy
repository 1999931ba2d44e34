/** Scalars that go over several lines, flow collections that stand alone or are not closed, and
    where a text is cut into lines. */
module YamlPlain {
  import opened Text
  import opened YamlText
  import opened YamlSpec
  import opened YamlPrint
  import opened YamlRoundTrip

  // ---------------------------------------------------------------- plain scalars

  /** A line of a plain scalar at indent base: it is indented at least as far, and starts no comment;
      the lines after the first are no item and, at the same indent, no key. */
  predicate IsPlainLine(body: string, indent: nat, base: nat, first: bool) {
    && Trimmed(body) && body[0] != '#' && indent >= base
    && (!first ==> !(indent == base && OpensKey(body)) && !StartsWith(body, "- "))
  }

  predicate PlainStands(lines: seq<string>, pos: nat, bodies: seq<string>, indents: seq<nat>, base: nat) {
    && |indents| == |bodies| && pos + |bodies| <= |lines|
    && forall i :: 0 <= i < |bodies| ==>
         lines[pos + i] == Indented(indents[i], bodies[i]) && IsPlainLine(bodies[i], indents[i], base, i == 0)
  }

  /** A plain scalar ends at the end of the text, at noise, at a less indented line, at a key at its
      indent and at an item. */
  predicate PlainEnds(lines: seq<string>, pos: nat, base: nat) {
    || pos >= |lines| || IsNoise(lines[pos]) || Lead(lines[pos]) < base
    || (Lead(lines[pos]) == base && OpensKey(Strip(lines[pos]))) || StartsWith(Strip(lines[pos]), "- ")
  }

  lemma {:induction false} PlainLinesRead(
      lines: seq<string>, pos: nat, bodies: seq<string>, indents: seq<nat>, base: nat, i: nat)
    requires bodies != [] && i <= |bodies| && PlainStands(lines, pos, bodies, indents, base)
    requires PlainEnds(lines, pos + |bodies|, base)
    ensures PlainLines(lines, pos + i, base, bodies[..i]) == Parsed(bodies, pos + |bodies|)
    decreases |bodies| - i
  {
    hide OpensKey, Strip, Lead, Indented;
    if i == |bodies| {
      assert bodies[..i] == bodies;
    } else {
      var body := bodies[i];
      assert lines[pos + i] == Indented(indents[i], body) && IsPlainLine(body, indents[i], base, i == 0);
      PlainLineIsSeen(body, indents[i]);
      assert bodies[..i + 1] == bodies[..i] + [body];
      PlainLinesRead(lines, pos, bodies, indents, base, i + 1);
    }
  }

  lemma PlainLineIsSeen(body: string, indent: nat)
    requires Trimmed(body) && body[0] != '#'
    ensures var line := Indented(indent, body); !IsNoise(line) && Lead(line) == indent && Strip(line) == body
  {
    StripIndented(indent, body);
    assert body[..1] == [body[0]];
  }

  /** A plain scalar over several lines is read as its lines joined by blanks; the cursor stops where
      the scalar ends. */
  lemma PlainScalarReads(lines: seq<string>, pos: nat, bodies: seq<string>, indents: seq<nat>)
    requires bodies != [] && |indents| > 0 && PlainStands(lines, pos, bodies, indents, indents[0])
    requires PlainEnds(lines, pos + |bodies|, indents[0])
    requires !StartsWith(bodies[0], "- ") && bodies[0] != "-" && !OpensKey(bodies[0])
    requires bodies[0][0] != '{' && bodies[0][0] != '['
    ensures ValueAt(lines, pos) == Parsed(ScalarOf(Join(bodies, " ")), pos + |bodies|)
  {
    hide OpensKey, Strip, Lead, Indented, PlainLines, ScalarOf, SequenceAt, MappingAt;
    assert lines[pos + 0] == Indented(indents[0], bodies[0]) && IsPlainLine(bodies[0], indents[0], indents[0], true);
    PlainLineIsSeen(bodies[0], indents[0]);
    PlainLinesRead(lines, pos, bodies, indents, indents[0], 0);
    assert bodies[..0] == [];
    assert SkipNoise(lines, pos) == pos;
    assert bodies[0][..1] == [bodies[0][0]];
  }

  // ---------------------------------------------------------------- flow collections on their own

  /** A line that starts with an opening bracket is a flow collection, whatever else it has. */
  lemma FlowLineReads(lines: seq<string>, pos: nat, text: string, indent: nat)
    requires pos < |lines| && lines[pos] == Indented(indent, text) && Trimmed(text)
    ensures text[0] == '[' ==> ValueAt(lines, pos) == Parsed(FlowSeqOf(text), pos + 1)
    ensures text[0] == '{' ==> ValueAt(lines, pos) == Parsed(FlowMapOf(text), pos + 1)
  {
    hide OpensKey, Strip, Lead, Indented, FlowSeqOf, FlowMapOf, PlainLines, SequenceAt, MappingAt;
    if text[0] == '[' || text[0] == '{' {
      PlainLineIsSeen(text, indent);
      assert SkipNoise(lines, pos) == pos;
      assert text[..1] == [text[0]];
      BracketIsNoKey(text);
    }
  }

  lemma BracketIsNoKey(text: string)
    requires text != "" && (text[0] == '[' || text[0] == '{')
    ensures !OpensKey(text) && !StartsWith(text, "- ") && text != "-"
  {
    assert text[..1] == [text[0]];
  }

  /** Without its closing bracket a flow sequence is one item, and a flow mapping is empty. */
  lemma UnclosedFlow(text: string)
    requires Trimmed(text)
    ensures text[0] == '[' && text[|text| - 1] != ']' ==> FlowSeqOf(text) == Seq([ScalarOf(text)])
    ensures text[0] == '{' && text[|text| - 1] != '}' ==> FlowMapOf(text) == Map([])
  {
    hide ScalarOf, FlowItems, FlowPairs;
    StripTrimmed(text);
    assert text[|text| - 1..] == [text[|text| - 1]];
  }

  /** In a flow mapping an item without a colon is passed over. */
  lemma ColonlessItem(item: string, items: seq<string>, acc: seq<Entry>)
    requires ':' !in item
    ensures FlowPairs([item] + items, acc) == FlowPairs(items, acc)
  {
    hide ScalarOf, DropQuotes, DictSet;
    FindMeaning(item, ':');
    assert ([item] + items)[1..] == items;
  }

  // ---------------------------------------------------------------- lines

  /** What ends a line. */
  predicate IsLineEnd(end: string) {
    || end == "\n" || end == "\r\n" || end == "\r" || end == "\U{0B}" || end == "\U{0C}"
    || end == "\U{1C}" || end == "\U{1D}" || end == "\U{1E}"
  }

  predicate BoundaryFree(line: string) {
    forall c :: c in line ==> c !in "\n\r\U{0B}\U{0C}\U{1C}\U{1D}\U{1E}"
  }

  /** Each line with what ends it. */
  function Ended(lines: seq<string>, ends: seq<string>): string
    requires |ends| == |lines|
  {
    if lines == [] then "" else lines[0] + ends[0] + Ended(lines[1..], ends[1..])
  }

  lemma BoundaryMeaning(c: char)
    ensures IsLineBoundary(c) <==> c in "\n\r\U{0B}\U{0C}\U{1C}\U{1D}\U{1E}"
  {
  }

  lemma EndStart(end: string)
    requires IsLineEnd(end)
    ensures end != "" && IsLineBoundary(end[0]) && (end[0] == '\n' <==> end == "\n")
    ensures end != "\r\n" ==> |end| == 1 && (end[0] == '\r' <==> end == "\r")
  {
  }

  lemma FreeStart(line: string)
    requires BoundaryFree(line) && line != ""
    ensures !IsLineBoundary(line[0]) && line[0] != '\r' && line[0] != '\n' && BoundaryFree(line[1..])
  {
    BoundaryMeaning(line[0]);
  }

  lemma TwoCharacters(c: char, rest: string)
    ensures StartsWith([c] + rest, "\r\n") <==> c == '\r' && StartsWith(rest, "\n")
  {
    var t := [c] + rest;
    if StartsWith(rest, "\n") {
      assert rest[0] == rest[..1][0] && t[1] == rest[0];
      assert t[..2] == [c, '\n'];
    }
    if StartsWith(t, "\r\n") {
      assert t[..2][0] == t[0] && t[..2][1] == t[1] == rest[0];
      assert rest[..1] == [rest[0]];
    }
  }

  lemma OneEnd(end: string, rest: string, current: string)
    requires IsLineEnd(end) && (end == "\r" ==> !StartsWith(rest, "\n"))
    ensures SplitLinesFrom(end + rest, current) == [current] + SplitLinesFrom(rest, "")
  {
    hide IsLineEnd, IsLineBoundary, StartsWith;
    EndStart(end);
    var text := end + rest;
    if end == "\r\n" {
      assert StartsWith(text, "\r\n") by { assert text[..2] == end; Prefix(end, rest); }
      assert text[2..] == rest;
    } else {
      assert text == [end[0]] + rest && text[1..] == rest;
      TwoCharacters(end[0], rest);
    }
  }

  lemma Prefix(a: string, b: string)
    ensures StartsWith(a + b, a)
  {
  }

  lemma {:induction false} SplitEnded(line: string, end: string, rest: string, current: string)
    requires BoundaryFree(line) && IsLineEnd(end) && (end == "\r" ==> !StartsWith(rest, "\n"))
    ensures SplitLinesFrom(line + end + rest, current) == [current + line] + SplitLinesFrom(rest, "")
  {
    hide IsLineEnd, BoundaryFree, IsLineBoundary, StartsWith;
    var text := line + end + rest;
    if line == "" {
      assert current + line == current && text == end + rest;
      OneEnd(end, rest, current);
    } else {
      FreeStart(line);
      assert text[1..] == line[1..] + end + rest && text == [line[0]] + text[1..];
      TwoCharacters(line[0], text[1..]);
      SplitEnded(line[1..], end, rest, current + [line[0]]);
      assert current + [line[0]] + line[1..] == current + line;
    }
  }

  predicate AreLines(lines: seq<string>, ends: seq<string>) {
    && |ends| == |lines| && (forall i :: 0 <= i < |ends| ==> IsLineEnd(ends[i]) && BoundaryFree(lines[i]))
    && forall i :: 0 <= i < |ends| - 1 && ends[i] == "\r" && lines[i + 1] == "" ==> ends[i + 1] != "\n"
  }

  lemma StartOfLine(lines: seq<string>, ends: seq<string>, last: string)
    requires AreLines(lines, ends) && BoundaryFree(last) && StartsWith(Ended(lines, ends) + last, "\n")
    ensures lines != [] && lines[0] == "" && ends[0] == "\n"
  {
    hide BoundaryFree, IsLineEnd;
    var text := Ended(lines, ends) + last;
    assert text[..1] == "\n" && text[0] == text[..1][0] == '\n';
    if lines == [] {
      assert text == last;
      FreeStart(last);
    } else {
      EndStart(ends[0]);
      if lines[0] != "" {
        assert text[0] == lines[0][0];
        FreeStart(lines[0]);
      } else {
        assert text[0] == ends[0][0];
      }
    }
  }

  /** A line feed, a carriage return or both, and the other separators each end a line; text after the
      last one is a line too, and nothing after it is none. */
  lemma {:induction false} LinesAreCut(lines: seq<string>, ends: seq<string>, last: string)
    requires AreLines(lines, ends) && BoundaryFree(last)
    ensures SplitLines(Ended(lines, ends) + last) == lines + (if last == "" then [] else [last])
    decreases |lines|
  {
    hide BoundaryFree, IsLineEnd, StartsWith;
    if lines == [] {
      assert "" + last == last;
      SplitLast(last, "");
    } else {
      var more := Ended(lines[1..], ends[1..]) + last;
      assert Ended(lines, ends) + last == lines[0] + ends[0] + more;
      if StartsWith(more, "\n") {
        StartOfLine(lines[1..], ends[1..], last);
      }
      SplitEnded(lines[0], ends[0], more, "");
      LinesAreCut(lines[1..], ends[1..], last);
      assert "" + lines[0] == lines[0];
    }
  }

  lemma {:induction false} SplitLast(last: string, current: string)
    requires BoundaryFree(last)
    ensures SplitLinesFrom(last, current) == if current + last == "" then [] else [current + last]
  {
    hide BoundaryFree, IsLineBoundary, StartsWith;
    if last == "" {
      assert current + last == current;
    } else {
      FreeStart(last);
      assert last == [last[0]] + last[1..];
      TwoCharacters(last[0], last[1..]);
      SplitLast(last[1..], current + [last[0]]);
      assert current + [last[0]] + last[1..] == current + last;
    }
  }
}
