/** The embedded parser as the script runs it: a cursor over the lines, moved by mutually
    recursive methods. Each method is proved against its function in YamlSpec. */
module YamlParser {
  import opened Text
  import opened YamlText
  import opened YamlSpec

  class Parser {
    const lines: seq<string>
    var pos: nat

    constructor (text: string)
      ensures lines == SplitLines(text) && pos == 0
    {
      lines := SplitLines(text);
      pos := 0;
    }

    ghost predicate Valid()
      reads this
    {
      pos <= |lines|
    }

    method Parse() returns (v: Value)
      requires Valid() && pos == 0
      modifies this
      ensures Valid() && v == Document(lines)
    {
      SkipBlanksAndComments();
      SkipNoiseTwice(lines, 0);
      if pos >= |lines| {
        return Null;
      }
      v := ParseValue();
    }

    method SkipBlanksAndComments()
      requires Valid()
      modifies this
      ensures Valid() && pos == SkipNoise(lines, old(pos))
    {
      while pos < |lines|
        invariant Valid() && SkipNoise(lines, pos) == SkipNoise(lines, old(pos))
      {
        var stripped := Strip(lines[pos]);
        if stripped == "" || StartsWith(stripped, "#") {
          pos := pos + 1;
        } else {
          break;
        }
      }
    }

    method PeekLine() returns (line: Option<string>)
      requires Valid()
      modifies this
      ensures Valid() && pos == SkipNoise(lines, old(pos))
      ensures line == if pos == |lines| then None else Some(lines[pos])
    {
      SkipBlanksAndComments();
      line := if pos >= |lines| then None else Some(lines[pos]);
    }

    static method StripComment(text: string) returns (r: string)
      ensures r == WithoutComment(text)
    {
      var inSingle, inDouble := false, false;
      for i := 0 to |text|
        invariant inSingle <==> QuoteAt(text, i) == InSingle
        invariant inDouble <==> QuoteAt(text, i) == InDouble
        invariant CommentFrom(text, i) == CommentFrom(text, 0)
      {
        var ch := text[i];
        if ch == '\'' && !inDouble {
          inSingle := !inSingle;
        } else if ch == '"' && !inSingle {
          inDouble := !inDouble;
        } else if ch == '#' && !inSingle && !inDouble {
          if i == 0 || text[i - 1] == ' ' {
            return Strip(text[..i]);
          }
        }
      }
      assert text[..|text|] == text;
      r := Strip(text);
    }

    static method IsMappingKey(line: string) returns (b: bool)
      ensures b <==> OpensKey(Strip(line))
    {
      var stripped := Strip(line);
      if StartsWith(stripped, "-") || StartsWith(stripped, "{") || StartsWith(stripped, "[") {
        return false;
      }
      var inSingle, inDouble := false, false;
      for i := 0 to |stripped|
        invariant inSingle <==> QuoteAt(stripped, i) == InSingle
        invariant inDouble <==> QuoteAt(stripped, i) == InDouble
        invariant forall k :: 0 <= k < i ==> !IsKeyColon(stripped, k)
      {
        var ch := stripped[i];
        if ch == '\'' && !inDouble {
          inSingle := !inSingle;
        } else if ch == '"' && !inSingle {
          inDouble := !inDouble;
        } else if ch == ':' && !inSingle && !inDouble {
          if i + 1 == |stripped| || stripped[i + 1] == ' ' {
            assert IsKeyColon(stripped, i);
            return true;
          }
        }
      }
      b := false;
    }

    static method SplitFlow(text: string) returns (items: seq<string>)
      ensures items == FlowItems(text)
    {
      items := [];
      var depth, current := 0, "";
      for i := 0 to |text|
        invariant items + FlowSplit(text[i..], depth, current) == FlowItems(text)
      {
        var ch := text[i];
        assert text[i..][1..] == text[i + 1..];
        if IsOpener(ch) {
          depth := depth + 1;
          current := current + [ch];
        } else if IsCloser(ch) {
          depth := depth - 1;
          current := current + [ch];
        } else if ch == ',' && depth == 0 {
          items := items + [current];
          current := "";
        } else {
          current := current + [ch];
        }
      }
      if current != "" {
        items := items + [current];
      }
    }

    static method ParseInlineFlowSeq(raw: string) returns (v: Value)
      ensures v == FlowSeqOf(raw)
    {
      var text := Strip(raw);
      if StartsWith(text, "[") && EndsWith(text, "]") {
        var inner := Strip(Inner(text));
        var items := SplitFlow(inner);
        var values: seq<Value> := [];
        for i := 0 to |items|
          invariant |values| == i && forall k :: 0 <= k < i ==> values[k] == ScalarOf(Strip(items[k]))
        {
          values := values + [ScalarOf(Strip(items[i]))];
        }
        v := Seq(values);
      } else {
        v := Seq([ScalarOf(text)]);
      }
    }

    static method ParseInlineFlowMap(raw: string) returns (v: Value)
      ensures v == FlowMapOf(raw)
    {
      hide Strip, Find, DropQuotes, ScalarOf, DictSet, FlowItems;
      var text := Strip(raw);
      if StartsWith(text, "{") && EndsWith(text, "}") {
        var pairs := SplitFlow(Strip(Inner(text)));
        var result: seq<Entry> := [];
        for i := 0 to |pairs|
          invariant FlowPairs(pairs[i..], result) == FlowPairs(pairs, [])
        {
          assert pairs[i..][1..] == pairs[i + 1..];
          match Find(pairs[i], ':') {
            case None =>
            case Some(c) =>
              result := DictSet(result, DropQuotes(Strip(pairs[i][..c])), ScalarOf(Strip(pairs[i][c + 1..])));
          }
        }
        v := Map(result);
      } else {
        v := Map([]);
      }
    }

    method ParseValue() returns (v: Value)
      requires Valid()
      modifies this
      ensures Valid() && Parsed(v, pos) == ValueAt(lines, old(pos))
      decreases |lines| - pos, 3
    {
      var line := PeekLine();
      if line.None? {
        return Null;
      }
      var indent, stripped := Lead(line.value), Strip(line.value);
      StripIsTrimmed(line.value);
      StripTrimmed(stripped);
      if StartsWith(stripped, "- ") || stripped == "-" {
        SkipNoiseTwice(lines, old(pos));
        var items := ParseSequence(indent);
        return Seq(items);
      }
      var isKey := IsMappingKey(stripped);
      if isKey {
        SkipNoiseTwice(lines, old(pos));
        var entries := ParseMapping(indent);
        return Map(entries);
      }
      if StartsWith(stripped, "{") {
        pos := pos + 1;
        v := ParseInlineFlowMap(stripped);
      } else if StartsWith(stripped, "[") {
        pos := pos + 1;
        v := ParseInlineFlowSeq(stripped);
      } else {
        v := ParsePlainScalar(indent);
      }
    }

    method ParsePlainScalar(base: nat) returns (v: Value)
      requires Valid()
      modifies this
      ensures Valid() && pos == PlainLines(lines, old(pos), base, []).pos
      ensures v == ScalarOf(Join(PlainLines(lines, old(pos), base, []).value, " "))
    {
      var parts: seq<string> := [];
      while pos < |lines|
        invariant Valid() && PlainLines(lines, pos, base, parts) == PlainLines(lines, old(pos), base, [])
      {
        var line := lines[pos];
        var stripped := Strip(line);
        if stripped == "" || StartsWith(stripped, "#") {
          break;
        }
        var ind := Lead(line);
        if ind < base {
          break;
        }
        StripIsTrimmed(line);
        StripTrimmed(stripped);
        var isKey := IsMappingKey(stripped);
        if parts != [] && ind == base && isKey {
          break;
        }
        if parts != [] && StartsWith(stripped, "- ") {
          break;
        }
        parts := parts + [stripped];
        pos := pos + 1;
      }
      v := ScalarOf(Join(parts, " "));
    }

    method ParseMapping(base: nat) returns (result: seq<Entry>)
      requires Valid()
      modifies this
      ensures Valid() && Parsed(result, pos) == MappingAt(lines, old(pos), base, [])
      decreases |lines| - pos, 0
    {
      hide MatchKey, WithoutComment, DictSet, LStrip, Strip, Lead, EntryValue, ItemAt;
      result := [];
      ghost var goal := MappingAt(lines, pos, base, []);
      while true
        invariant Valid() && pos >= old(pos)
        invariant MappingAt(lines, pos, base, result) == goal
        decreases |lines| - pos
      {
        var line := PeekLine();
        if line.None? {
          break;
        }
        var indent := Lead(line.value);
        if indent < base {
          break;
        }
        if indent > base {
          break;
        }
        if StartsWith(Strip(line.value), "- ") {
          break;
        }
        var m := MatchKey(LStrip(line.value));
        if m.None? {
          pos := pos + 1;
          continue;
        }
        var rest := StripComment(m.value.rest);
        pos := pos + 1;
        var v := ParseEntryValue(rest, base);
        result := DictSet(result, m.value.key, v);
      }
    }

    /** The value of a key at indent base, shared by block mappings and dash continuations. */
    method ParseEntryValue(rest: string, base: nat) returns (v: Value)
      requires Valid()
      modifies this
      ensures Valid() && Parsed(v, pos) == EntryValue(lines, old(pos), base, rest)
      decreases |lines| - pos, 5
    {
      if IsBlockIndicator(rest) {
        var s := ParseBlockScalar(rest, base);
        v := Str(s);
      } else if rest == "" {
        v := ParseNested(base);
      } else if StartsWith(rest, "[") {
        v := ParseInlineFlowSeq(rest);
      } else if StartsWith(rest, "{") {
        v := ParseInlineFlowMap(rest);
      } else {
        v := ScalarOf(rest);
      }
    }

    method ParseNested(base: int) returns (v: Value)
      requires Valid()
      modifies this
      ensures Valid() && Parsed(v, pos) == NestedValue(lines, old(pos), base)
      decreases |lines| - pos, 4
    {
      var next := PeekLine();
      if next.Some? && Lead(next.value) > base {
        v := ParseValue();
      } else {
        v := Null;
      }
    }

    method ParseSequence(base: nat) returns (result: seq<Value>)
      requires Valid()
      modifies this
      ensures Valid() && Parsed(result, pos) == SequenceAt(lines, old(pos), base, [])
      decreases |lines| - pos, 0
    {
      hide MatchKey, WithoutComment, DictSet, LStrip, Strip, Lead, EntryValue, ItemAt;
      result := [];
      ghost var goal := SequenceAt(lines, pos, base, []);
      while true
        invariant Valid() && pos >= old(pos)
        invariant SequenceAt(lines, pos, base, result) == goal
        decreases |lines| - pos
      {
        var line := PeekLine();
        if line.None? {
          break;
        }
        var indent := Lead(line.value);
        if indent < base {
          break;
        }
        if indent > base {
          break;
        }
        var stripped := Strip(line.value);
        if !StartsWith(stripped, "-") {
          break;
        }
        var afterDash := Strip(stripped[1..]);
        pos := pos + 1;
        var v := ParseItem(afterDash, base);
        result := result + [v];
      }
    }

    method ParseItem(afterDash: string, base: nat) returns (v: Value)
      requires Valid()
      modifies this
      ensures Valid() && Parsed(v, pos) == ItemAt(lines, old(pos), base, afterDash)
      decreases |lines| - pos, 6
    {
      if afterDash == "" {
        v := ParseNested(base);
      } else if OpensDashMapping(afterDash) {
        var entries := ParseDashInlineMapping(afterDash, base + 2);
        v := Map(entries);
      } else if StartsWith(afterDash, "[") {
        v := ParseInlineFlowSeq(afterDash);
      } else if StartsWith(afterDash, "{") {
        v := ParseInlineFlowMap(afterDash);
      } else {
        v := ScalarOf(afterDash);
      }
    }

    method ParseDashInlineMapping(first: string, cont: nat) returns (result: seq<Entry>)
      requires Valid()
      modifies this
      ensures Valid() && Parsed(result, pos) == DashMapping(lines, old(pos), cont, first)
      decreases |lines| - pos, 5
    {
      result := [];
      var m := MatchKey(first);
      if m.Some? {
        var rest := StripComment(m.value.rest);
        var v: Value;
        if rest != "" {
          v := ScalarOf(rest);
        } else {
          v := ParseNested(cont - 1);
        }
        result := DictSet(result, m.value.key, v);
      }
      result := ParseContinuation(result, cont);
    }

    /** The second half of a dash mapping: the entries on the lines at indent cont. */
    method ParseContinuation(acc: seq<Entry>, cont: nat) returns (result: seq<Entry>)
      requires Valid()
      modifies this
      ensures Valid() && Parsed(result, pos) == Continuation(lines, old(pos), cont, acc)
      decreases |lines| - pos, 0
    {
      hide MatchKey, WithoutComment, DictSet, LStrip, Strip, Lead, EntryValue, ItemAt;
      result := acc;
      ghost var goal := Continuation(lines, pos, cont, acc);
      while true
        invariant Valid() && pos >= old(pos)
        invariant Continuation(lines, pos, cont, result) == goal
        decreases |lines| - pos
      {
        var line := PeekLine();
        if line.None? {
          break;
        }
        var indent := Lead(line.value);
        if indent < cont {
          break;
        }
        var m2 := MatchKey(LStrip(line.value));
        if m2.None? || indent != cont {
          break;
        }
        var rest := StripComment(m2.value.rest);
        pos := pos + 1;
        var v := ParseEntryValue(rest, cont);
        result := DictSet(result, m2.value.key, v);
      }
    }

    method ParseBlockScalar(indicator: string, base: nat) returns (s: string)
      requires Valid()
      modifies this
      ensures Valid() && Parsed(s, pos) == BlockScalarAt(lines, old(pos), indicator, base)
    {
      var kept: seq<string> := [];
      var block: Option<nat> := None;
      while pos < |lines|
        invariant Valid() && (block.Some? ==> block.value > base)
        invariant BlockLines(lines, pos, base, block, kept) == BlockLines(lines, old(pos), base, None, [])
      {
        var raw := lines[pos];
        if Strip(raw) == "" {
          kept := kept + [""];
          pos := pos + 1;
          continue;
        }
        var ind := Lead(raw);
        if ind <= base {
          break;
        }
        if block.None? {
          block := Some(ind);
        }
        if ind < block.value {
          break;
        }
        kept := kept + [raw[block.value..]];
        pos := pos + 1;
      }
      if !EndsWith(indicator, "+") {
        ghost var all := kept;
        while kept != [] && kept[|kept| - 1] == ""
          invariant DropTrailingEmpty(kept) == DropTrailingEmpty(all)
        {
          kept := kept[..|kept| - 1];
        }
      }
      if StartsWith(indicator, ">") {
        kept := FoldLines(kept);
      }
      s := TextOfLines(kept);
    }

    static method FoldLines(lines: seq<string>) returns (paragraphs: seq<string>)
      ensures paragraphs == Fold(lines)
    {
      paragraphs := [];
      var current: seq<string> := [];
      for i := 0 to |lines|
        invariant paragraphs + FoldFrom(lines[i..], current) == Fold(lines)
      {
        var ln := lines[i];
        assert lines[i..][1..] == lines[i + 1..];
        if ln == "" {
          if current != [] {
            paragraphs := paragraphs + [Join(current, " ")];
            current := [];
          }
          paragraphs := paragraphs + [""];
        } else {
          current := current + [ln];
        }
      }
      if current != [] {
        paragraphs := paragraphs + [Join(current, " ")];
      }
    }
  }

  lemma SkipNoiseTwice(lines: seq<string>, pos: nat)
    requires pos <= |lines|
    ensures SkipNoise(lines, SkipNoise(lines, pos)) == SkipNoise(lines, pos)
  {
  }
}
