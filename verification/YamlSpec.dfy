/** What each method of the YAML parser returns and where it leaves the cursor, as
    functions of the lines and the cursor. Positions are indices into `lines`. */
module YamlSpec {
  import opened Text
  import opened YamlText

  datatype Parsed<T> = Parsed(value: T, pos: nat)

  predicate Progress(lines: seq<string>, from: nat, to: nat) {
    from <= to <= |lines|
  }

  function SkipNoise(lines: seq<string>, pos: nat): (p: nat)
    requires pos <= |lines|
    ensures pos <= p <= |lines|
    ensures p < |lines| ==> !IsNoise(lines[p])
    decreases |lines| - pos
  {
    if pos < |lines| && IsNoise(lines[pos]) then SkipNoise(lines, pos + 1) else pos
  }

  /** The next significant line, if any, is indented by more than base. */
  predicate Deeper(lines: seq<string>, p: nat, base: int) {
    p < |lines| && Lead(lines[p]) > base
  }

  function ValueAt(lines: seq<string>, pos: nat): (r: Parsed<Value>)
    requires pos <= |lines|
    ensures Progress(lines, pos, r.pos)
    ensures SkipNoise(lines, pos) < |lines| ==> SkipNoise(lines, pos) < r.pos
    decreases |lines| - pos, 3
  {
    var p := SkipNoise(lines, pos);
    if p == |lines| then Parsed(Null, p)
    else
      var indent, stripped := Lead(lines[p]), Strip(lines[p]);
      if StartsWith(stripped, "- ") || stripped == "-" then
        var r := SequenceAt(lines, p, indent, []);
        Parsed(Seq(r.value), r.pos)
      else if OpensKey(stripped) then
        var r := MappingAt(lines, p, indent, []);
        Parsed(Map(r.value), r.pos)
      else if StartsWith(stripped, "{") then Parsed(FlowMapOf(stripped), p + 1)
      else if StartsWith(stripped, "[") then Parsed(FlowSeqOf(stripped), p + 1)
      else
        var r := PlainLines(lines, p, indent, []);
        Parsed(ScalarOf(Join(r.value, " ")), r.pos)
  }

  function PlainLines(lines: seq<string>, pos: nat, base: nat, parts: seq<string>): (r: Parsed<seq<string>>)
    requires pos <= |lines|
    ensures Progress(lines, pos, r.pos)
    ensures pos < |lines| && parts == [] && !IsNoise(lines[pos]) && Lead(lines[pos]) >= base ==> pos < r.pos
    decreases |lines| - pos, 0
  {
    if pos == |lines| || IsNoise(lines[pos]) || Lead(lines[pos]) < base then Parsed(parts, pos)
    else
      var stripped := Strip(lines[pos]);
      if parts != [] && Lead(lines[pos]) == base && OpensKey(stripped) then Parsed(parts, pos)
      else if parts != [] && StartsWith(stripped, "- ") then Parsed(parts, pos)
      else PlainLines(lines, pos + 1, base, parts + [stripped])
  }

  /** Entries of a block mapping at indent base, after those already in acc. */
  function MappingAt(lines: seq<string>, pos: nat, base: nat, acc: seq<Entry>): (r: Parsed<seq<Entry>>)
    requires pos <= |lines|
    ensures Progress(lines, pos, r.pos)
    ensures pos < |lines| && !IsNoise(lines[pos]) && Lead(lines[pos]) == base && !StartsWith(Strip(lines[pos]), "- ")
            ==> pos < r.pos
    decreases |lines| - pos, 0
  {
    var p := SkipNoise(lines, pos);
    if p == |lines| || Lead(lines[p]) != base || StartsWith(Strip(lines[p]), "- ") then Parsed(acc, p)
    else match MatchKey(LStrip(lines[p]))
      case None => MappingAt(lines, p + 1, base, acc)
      case Some(k) =>
        var v := EntryValue(lines, p + 1, base, WithoutComment(k.rest));
        MappingAt(lines, v.pos, base, DictSet(acc, k.key, v.value))
  }

  predicate IsBlockIndicator(rest: string) {
    rest == "|" || rest == ">" || rest == "|+" || rest == ">+" || rest == "|-" || rest == ">-"
  }

  /** The value of a `key: rest` line whose key stands at indent base. */
  function EntryValue(lines: seq<string>, pos: nat, base: nat, rest: string): (r: Parsed<Value>)
    requires pos <= |lines|
    ensures Progress(lines, pos, r.pos)
    decreases |lines| - pos, 5
  {
    if IsBlockIndicator(rest) then
      var r := BlockScalarAt(lines, pos, rest, base);
      Parsed(Str(r.value), r.pos)
    else if rest == "" then NestedValue(lines, pos, base)
    else if StartsWith(rest, "[") then Parsed(FlowSeqOf(rest), pos)
    else if StartsWith(rest, "{") then Parsed(FlowMapOf(rest), pos)
    else Parsed(ScalarOf(rest), pos)
  }

  /** A value on the following lines, when the next one is indented by more than base. */
  function NestedValue(lines: seq<string>, pos: nat, base: int): (r: Parsed<Value>)
    requires pos <= |lines|
    ensures Progress(lines, pos, r.pos)
    decreases |lines| - pos, 4
  {
    var p := SkipNoise(lines, pos);
    if Deeper(lines, p, base) then ValueAt(lines, p) else Parsed(Null, p)
  }

  /** The text after a dash opens a mapping: it has a colon and does not start with a bracket or a quote. */
  predicate OpensDashMapping(afterDash: string) {
    ':' in afterDash && afterDash[0] !in "{['\""
  }

  function SequenceAt(lines: seq<string>, pos: nat, base: nat, acc: seq<Value>): (r: Parsed<seq<Value>>)
    requires pos <= |lines|
    ensures Progress(lines, pos, r.pos)
    ensures pos < |lines| && !IsNoise(lines[pos]) && Lead(lines[pos]) == base && StartsWith(Strip(lines[pos]), "-")
            ==> pos < r.pos
    decreases |lines| - pos, 0
  {
    var p := SkipNoise(lines, pos);
    if p == |lines| || Lead(lines[p]) != base || !StartsWith(Strip(lines[p]), "-") then Parsed(acc, p)
    else
      var item := ItemAt(lines, p + 1, base, Strip(Strip(lines[p])[1..]));
      SequenceAt(lines, item.pos, base, acc + [item.value])
  }

  function ItemAt(lines: seq<string>, pos: nat, base: nat, afterDash: string): (r: Parsed<Value>)
    requires pos <= |lines|
    ensures Progress(lines, pos, r.pos)
    decreases |lines| - pos, 6
  {
    if afterDash == "" then NestedValue(lines, pos, base)
    else if OpensDashMapping(afterDash) then
      var r := DashMapping(lines, pos, base + 2, afterDash);
      Parsed(Map(r.value), r.pos)
    else if StartsWith(afterDash, "[") then Parsed(FlowSeqOf(afterDash), pos)
    else if StartsWith(afterDash, "{") then Parsed(FlowMapOf(afterDash), pos)
    else Parsed(ScalarOf(afterDash), pos)
  }

  /** `- key: value` and the lines that continue it at indent cont. */
  function DashMapping(lines: seq<string>, pos: nat, cont: nat, first: string): (r: Parsed<seq<Entry>>)
    requires pos <= |lines|
    ensures Progress(lines, pos, r.pos)
    decreases |lines| - pos, 5
  {
    match MatchKey(first)
    case None => Continuation(lines, pos, cont, [])
    case Some(k) =>
      var rest := WithoutComment(k.rest);
      // the first value is read as a scalar or from the lines at indent cont or deeper, never as a block scalar or flow
      var v := if rest != "" then Parsed(ScalarOf(rest), pos) else NestedValue(lines, pos, cont - 1);
      Continuation(lines, v.pos, cont, [Entry(k.key, v.value)])
  }

  function Continuation(lines: seq<string>, pos: nat, cont: nat, acc: seq<Entry>): (r: Parsed<seq<Entry>>)
    requires pos <= |lines|
    ensures Progress(lines, pos, r.pos)
    decreases |lines| - pos, 0
  {
    var p := SkipNoise(lines, pos);
    if p == |lines| || Lead(lines[p]) != cont then Parsed(acc, p)
    else match MatchKey(LStrip(lines[p]))
      case None => Parsed(acc, p)
      case Some(k) =>
        var v := EntryValue(lines, p + 1, cont, WithoutComment(k.rest));
        Continuation(lines, v.pos, cont, DictSet(acc, k.key, v.value))
  }

  // ---------------------------------------------------------------- block scalars

  /** The raw lines of a block scalar under a key at indent base, once `indent` is fixed by the first non-blank one. */
  function BlockLines(
      lines: seq<string>, pos: nat, base: nat, indent: Option<nat>, acc: seq<string>): (r: Parsed<seq<string>>)
    requires pos <= |lines|
    requires indent.Some? ==> indent.value > base
    ensures Progress(lines, pos, r.pos)
    decreases |lines| - pos, 0
  {
    if pos == |lines| then Parsed(acc, pos)
    else if Strip(lines[pos]) == "" then BlockLines(lines, pos + 1, base, indent, acc + [""])
    else
      var ind := Lead(lines[pos]);
      if ind <= base then Parsed(acc, pos)
      else
        var block := if indent.None? then ind else indent.value;
        if ind < block then Parsed(acc, pos)
        else BlockLines(lines, pos + 1, base, Some(block), acc + [lines[pos][block..]])
  }

  function DropTrailingEmpty(lines: seq<string>): seq<string> {
    if lines != [] && lines[|lines| - 1] == "" then DropTrailingEmpty(lines[..|lines| - 1]) else lines
  }

  /** Folded paragraphs: runs of non-empty lines joined by blanks; every empty line is kept. */
  function FoldFrom(lines: seq<string>, current: seq<string>): seq<string> {
    var flushed := if current == [] then [] else [Join(current, " ")];
    if lines == [] then flushed
    else if lines[0] == "" then flushed + [""] + FoldFrom(lines[1..], [])
    else FoldFrom(lines[1..], current + [lines[0]])
  }

  function Fold(lines: seq<string>): seq<string> {
    FoldFrom(lines, [])
  }

  function TextOfLines(lines: seq<string>): string {
    if lines == [] then "" else Join(lines, "\n") + "\n"
  }

  function BlockScalarAt(lines: seq<string>, pos: nat, indicator: string, base: nat): (r: Parsed<string>)
    requires pos <= |lines|
    ensures Progress(lines, pos, r.pos)
    decreases |lines| - pos, 1
  {
    var raw := BlockLines(lines, pos, base, None, []);
    var kept := if EndsWith(indicator, "+") then raw.value else DropTrailingEmpty(raw.value);
    Parsed(TextOfLines(if StartsWith(indicator, ">") then Fold(kept) else kept), raw.pos)
  }

  // ---------------------------------------------------------------- documents

  predicate IsLineBoundary(c: char) {
    '\n' <= c <= '\r' || '\U{1C}' <= c <= '\U{1E}'
  }

  /** `text.splitlines()`: a `\r\n` pair is one boundary and a final boundary opens no line. */
  function SplitLines(text: string): seq<string> {
    SplitLinesFrom(text, "")
  }

  function SplitLinesFrom(text: string, current: string): seq<string> {
    if text == "" then (if current == "" then [] else [current])
    else if StartsWith(text, "\r\n") then [current] + SplitLinesFrom(text[2..], "")
    else if IsLineBoundary(text[0]) then [current] + SplitLinesFrom(text[1..], "")
    else SplitLinesFrom(text[1..], current + [text[0]])
  }

  function Document(lines: seq<string>): Value {
    ValueAt(lines, 0).value
  }
}
