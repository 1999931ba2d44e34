/** Lines that no printer writes: text with a colon after a dash, dashes without a blank, and lines
    without a key among the entries of a mapping. */
module YamlEdges {
  import opened Text
  import opened YamlText
  import opened YamlSpec
  import opened YamlPrint
  import opened YamlRoundTrip
  import opened YamlDash

  // ---------------------------------------------------------------- after a dash

  /** Text after a dash that has a colon anywhere and starts with no bracket, brace or quote opens a
      mapping: with a key before the colon, blank after it or not, one whose first value is the scalar
      after the colon; without one, a mapping of the entries below alone. */
  lemma DashColonMeaning(lines: seq<string>, pos: nat, d: nat, text: string)
    requires pos <= |lines| && text != "" && ':' in text
    requires text[0] != '{' && text[0] != '[' && text[0] != '\'' && text[0] != '"'
    ensures MatchKey(text).None? ==> ItemAt(lines, pos, d, text) == AsMap(Continuation(lines, pos, d + 2, []))
    ensures MatchKey(text).Some? && WithoutComment(MatchKey(text).value.rest) != "" ==>
              var k := MatchKey(text).value;
              ItemAt(lines, pos, d, text)
              == AsMap(Continuation(lines, pos, d + 2, [Entry(k.key, ScalarOf(WithoutComment(k.rest)))]))
  {
    hide MatchKey, WithoutComment, ScalarOf, NestedValue, Continuation;
  }

  /** Other text after a dash is a flow collection or a scalar on that line. */
  lemma DashTextMeaning(lines: seq<string>, pos: nat, d: nat, text: string)
    requires pos <= |lines| && text != ""
    requires ':' !in text || text[0] == '{' || text[0] == '[' || text[0] == '\'' || text[0] == '"'
    ensures ItemAt(lines, pos, d, text).pos == pos
    ensures ItemAt(lines, pos, d, text).value
         == if text[0] == '[' then FlowSeqOf(text) else if text[0] == '{' then FlowMapOf(text) else ScalarOf(text)
  {
    hide ScalarOf, NestedValue, DashMapping, FlowSeqOf, FlowMapOf;
    assert text[..1] == [text[0]];
  }

  /** A line at the indent of a sequence that starts with a dash is an item, with a blank after the
      dash or without; any other line ends the sequence. */
  lemma SequenceStep(lines: seq<string>, pos: nat, indent: nat, text: string, d: nat, acc: seq<Value>)
    requires pos < |lines| && lines[pos] == Indented(indent, text) && Trimmed(text) && text[0] != '#'
    ensures indent == d && text[0] == '-' ==>
              var item := ItemAt(lines, pos + 1, d, Strip(text[1..]));
              SequenceAt(lines, pos, d, acc) == SequenceAt(lines, item.pos, d, acc + [item.value])
    ensures indent != d || text[0] != '-' ==> SequenceAt(lines, pos, d, acc) == Parsed(acc, pos)
  {
    hide Lead, Strip, ItemAt, Indented;
    LineSeen(indent, text);
    assert SkipNoise(lines, pos) == pos;
    assert text[..1] == [text[0]];
  }

  lemma LineSeen(indent: nat, text: string)
    requires Trimmed(text) && text[0] != '#'
    ensures var line := Indented(indent, text);
            !IsNoise(line) && Lead(line) == indent && Strip(line) == text && LStrip(line) == text
  {
    StripIndented(indent, text);
    assert text[..1] == [text[0]];
  }

  /** Where a value starts with a dash and a blank, or is a dash alone, it is a sequence; a dash right
      before other text starts none. */
  lemma DashOpensSequence(lines: seq<string>, pos: nat, indent: nat, text: string)
    requires pos < |lines| && lines[pos] == Indented(indent, text) && Trimmed(text) && text[0] == '-'
    ensures ValueAt(lines, pos).value.Seq? <==> text == "-" || text[1] == ' '
  {
    hide Lead, Strip, ItemAt, Indented, SequenceAt, MappingAt, PlainLines, ScalarOf, OpensKey;
    LineSeen(indent, text);
    assert SkipNoise(lines, pos) == pos;
    assert |text| > 1 ==> text[..2] == [text[0], text[1]];
    assert text[..1] == "-";
    DashIsNoKey(text);
    ScalarIsNoCollection(Join(PlainLines(lines, pos, indent, []).value, " "));
  }

  lemma DashIsNoKey(text: string)
    requires text != "" && text[0] == '-'
    ensures !OpensKey(text) && !StartsWith(text, "{") && !StartsWith(text, "[")
  {
    assert text[..1] == "-";
  }

  // ---------------------------------------------------------------- among entries

  /** A line at the indent of a mapping without a key is passed over, unless it is an item; a line at
      another indent ends the mapping. */
  lemma MappingStep(lines: seq<string>, pos: nat, indent: nat, text: string, base: nat, acc: seq<Entry>)
    requires pos < |lines| && lines[pos] == Indented(indent, text) && Trimmed(text) && text[0] != '#'
    ensures indent == base && !StartsWith(text, "- ") && MatchKey(text).None? ==>
              MappingAt(lines, pos, base, acc) == MappingAt(lines, pos + 1, base, acc)
    ensures indent != base || StartsWith(text, "- ") ==> MappingAt(lines, pos, base, acc) == Parsed(acc, pos)
  {
    hide Lead, Strip, LStrip, EntryValue, Indented, MatchKey, WithoutComment, DictSet;
    LineSeen(indent, text);
    assert SkipNoise(lines, pos) == pos;
  }

  /** Among the entries that continue an item such a line ends the item. */
  lemma ContinuationStep(lines: seq<string>, pos: nat, indent: nat, text: string, cont: nat, acc: seq<Entry>)
    requires pos < |lines| && lines[pos] == Indented(indent, text) && Trimmed(text) && text[0] != '#'
    ensures indent != cont || MatchKey(text).None? ==> Continuation(lines, pos, cont, acc) == Parsed(acc, pos)
  {
    hide Lead, Strip, LStrip, EntryValue, Indented, MatchKey, WithoutComment, DictSet;
    LineSeen(indent, text);
    assert SkipNoise(lines, pos) == pos;
  }

  /** A repeated key keeps its place and takes the later value. */
  lemma RepeatedKey(
      lines: seq<string>, pos: nat, base: nat, k: string, text: string,
      before: seq<Entry>, was: Value, after: seq<Entry>)
    requires pos < |lines| && lines[pos] == Indented(base, k + ": '" + text + "'")
    requires IsWordKey(k) && '\'' !in text && OneLine(text) && !HasKey(before, k)
    ensures MappingAt(lines, pos, base, before + [Entry(k, was)] + after)
         == MappingAt(lines, pos + 1, base, before + [Entry(k, Str(text))] + after)
  {
    hide Lead, Strip, LStrip, EntryValue, Indented, MatchKey, WithoutComment, DictSet, Keeps, IsKeyChar;
    var e := Entry(k, Str(text));
    SimpleIsKept(text);
    assert Quoted(text) == "'" + text + "'";
    assert EntryHead(e) == k + ": '" + text + "'";
    EntryHeadReads(e);
    LineSeen(base, EntryHead(e));
    EntryValueAtom(lines, pos + 1, base, Str(text));
    assert SkipNoise(lines, pos) == pos;
    assert !StartsWith(EntryHead(e), "- ") by { assert EntryHead(e)[0] != '-'; }
    DictSetAt(before, k, Str(text), was, after);
  }

  lemma {:induction false} DictSetAt(before: seq<Entry>, k: string, v: Value, was: Value, after: seq<Entry>)
    requires !HasKey(before, k)
    ensures DictSet(before + [Entry(k, was)] + after, k, v) == before + [Entry(k, v)] + after
  {
    var all := before + [Entry(k, was)] + after;
    if before == [] {
      assert all[1..] == after;
    } else {
      assert before[0].key != k;
      assert all[1..] == before[1..] + [Entry(k, was)] + after;
      assert forall i :: 0 <= i < |before[1..]| ==> before[1..][i] == before[i + 1];
      DictSetAt(before[1..], k, v, was, after);
    }
  }
}
