/** A nested block never swallows a line of its enclosing block: every significant line that
    a block at indent b consumes is itself indented by at least b. */
module YamlConfinement {
  import opened Text
  import opened YamlText
  import opened YamlSpec

  ghost predicate Confined(lines: seq<string>, from: nat, to: nat, b: int)
    requires to <= |lines|
  {
    forall k :: from <= k < to && !IsNoise(lines[k]) ==> Lead(lines[k]) >= b
  }

  lemma {:induction false} NoiseIsConfined(lines: seq<string>, pos: nat, b: int)
    requires pos <= |lines|
    ensures Confined(lines, pos, SkipNoise(lines, pos), b)
    decreases |lines| - pos
  {
    if pos < |lines| && IsNoise(lines[pos]) {
      NoiseIsConfined(lines, pos + 1, b);
    }
  }

  lemma {:induction false} ValueIsConfined(lines: seq<string>, pos: nat)
    requires pos <= |lines| && SkipNoise(lines, pos) < |lines|
    ensures Confined(lines, pos, ValueAt(lines, pos).pos, Lead(lines[SkipNoise(lines, pos)]))
    decreases |lines| - pos, 3
  {
    var p := SkipNoise(lines, pos);
    var b := Lead(lines[p]);
    NoiseIsConfined(lines, pos, b);
    SequenceIsConfined(lines, p, b, []);
    MappingIsConfined(lines, p, b, []);
    PlainIsConfined(lines, p, b, []);
  }

  lemma {:induction false} PlainIsConfined(lines: seq<string>, pos: nat, base: nat, parts: seq<string>)
    requires pos <= |lines|
    ensures Confined(lines, pos, PlainLines(lines, pos, base, parts).pos, base)
    decreases |lines| - pos, 0
  {
    hide OpensKey, Lead, Strip, IsNoise;
    if PlainLines(lines, pos, base, parts) != Parsed(parts, pos) {
      PlainIsConfined(lines, pos + 1, base, parts + [Strip(lines[pos])]);
    }
  }

  lemma {:induction false} MappingIsConfined(lines: seq<string>, pos: nat, base: nat, acc: seq<Entry>)
    requires pos <= |lines|
    ensures Confined(lines, pos, MappingAt(lines, pos, base, acc).pos, base)
    decreases |lines| - pos, 0
  {
    hide MatchKey, DictSet, Lead, Strip, LStrip, IsNoise, WithoutComment, EntryValue;
    var p := SkipNoise(lines, pos);
    NoiseIsConfined(lines, pos, base);
    if p < |lines| && Lead(lines[p]) == base && !StartsWith(Strip(lines[p]), "- ") {
      match MatchKey(LStrip(lines[p]))
      case None =>
        MappingIsConfined(lines, p + 1, base, acc);
      case Some(k) =>
        var rest := WithoutComment(k.rest);
        var v := EntryValue(lines, p + 1, base, rest);
        EntryIsConfined(lines, p + 1, base, rest);
        MappingIsConfined(lines, v.pos, base, DictSet(acc, k.key, v.value));
    }
  }

  lemma {:induction false} EntryIsConfined(lines: seq<string>, pos: nat, base: nat, rest: string)
    requires pos <= |lines|
    ensures Confined(lines, pos, EntryValue(lines, pos, base, rest).pos, base + 1)
    decreases |lines| - pos, 5
  {
    hide NestedValue, FlowSeqOf, FlowMapOf, ScalarOf, IsNoise, Lead;
    BlockIsConfined(lines, pos, base, None, []);
    NestedIsConfined(lines, pos, base);
  }

  lemma {:induction false} NestedIsConfined(lines: seq<string>, pos: nat, base: int)
    requires pos <= |lines|
    ensures Confined(lines, pos, NestedValue(lines, pos, base).pos, base + 1)
    decreases |lines| - pos, 4
  {
    var p := SkipNoise(lines, pos);
    NoiseIsConfined(lines, pos, base + 1);
    if Deeper(lines, p, base) {
      ValueIsConfined(lines, p);
    }
  }

  lemma {:induction false} SequenceIsConfined(lines: seq<string>, pos: nat, base: nat, acc: seq<Value>)
    requires pos <= |lines|
    ensures Confined(lines, pos, SequenceAt(lines, pos, base, acc).pos, base)
    decreases |lines| - pos, 0
  {
    hide Lead, Strip, IsNoise, ItemAt;
    var p := SkipNoise(lines, pos);
    NoiseIsConfined(lines, pos, base);
    if p < |lines| && Lead(lines[p]) == base && StartsWith(Strip(lines[p]), "-") {
      var afterDash := Strip(Strip(lines[p])[1..]);
      var item := ItemAt(lines, p + 1, base, afterDash);
      ItemIsConfined(lines, p + 1, base, afterDash);
      SequenceIsConfined(lines, item.pos, base, acc + [item.value]);
    }
  }

  lemma {:induction false} ItemIsConfined(lines: seq<string>, pos: nat, base: nat, afterDash: string)
    requires pos <= |lines|
    ensures Confined(lines, pos, ItemAt(lines, pos, base, afterDash).pos, base + 1)
    decreases |lines| - pos, 6
  {
    hide NestedValue, DashMapping, OpensDashMapping, FlowSeqOf, FlowMapOf, ScalarOf, IsNoise, Lead;
    NestedIsConfined(lines, pos, base);
    DashIsConfined(lines, pos, base + 2, afterDash);
  }

  lemma {:induction false} DashIsConfined(lines: seq<string>, pos: nat, cont: nat, first: string)
    requires pos <= |lines|
    ensures Confined(lines, pos, DashMapping(lines, pos, cont, first).pos, cont)
    decreases |lines| - pos, 5
  {
    hide MatchKey, Lead, WithoutComment, NestedValue;
    match MatchKey(first)
    case None =>
      ContinuationIsConfined(lines, pos, cont, []);
    case Some(k) =>
      var rest := WithoutComment(k.rest);
      var v := if rest != "" then Parsed(ScalarOf(rest), pos) else NestedValue(lines, pos, cont - 1);
      NestedIsConfined(lines, pos, cont - 1);
      ContinuationIsConfined(lines, v.pos, cont, [Entry(k.key, v.value)]);
  }

  lemma {:induction false} ContinuationIsConfined(lines: seq<string>, pos: nat, cont: nat, acc: seq<Entry>)
    requires pos <= |lines|
    ensures Confined(lines, pos, Continuation(lines, pos, cont, acc).pos, cont)
    decreases |lines| - pos, 0
  {
    hide MatchKey, DictSet, Lead, LStrip, IsNoise, WithoutComment, EntryValue;
    var p := SkipNoise(lines, pos);
    NoiseIsConfined(lines, pos, cont);
    if p < |lines| && Lead(lines[p]) == cont && MatchKey(LStrip(lines[p])).Some? {
      var k := MatchKey(LStrip(lines[p])).value;
      var rest := WithoutComment(k.rest);
      var v := EntryValue(lines, p + 1, cont, rest);
      EntryIsConfined(lines, p + 1, cont, rest);
      ContinuationIsConfined(lines, v.pos, cont, DictSet(acc, k.key, v.value));
    }
  }

  lemma {:induction false} BlockIsConfined(
      lines: seq<string>, pos: nat, base: nat, indent: Option<nat>, acc: seq<string>)
    requires pos <= |lines| && (indent.Some? ==> indent.value > base)
    ensures Confined(lines, pos, BlockLines(lines, pos, base, indent, acc).pos, base + 1)
    decreases |lines| - pos, 0
  {
    hide Lead, Strip;
    if pos < |lines| {
      var ind := Lead(lines[pos]);
      if Strip(lines[pos]) == "" {
        BlockIsConfined(lines, pos + 1, base, indent, acc + [""]);
      } else if ind > base {
        var block := if indent.None? then ind else indent.value;
        if ind >= block {
          BlockIsConfined(lines, pos + 1, base, Some(block), acc + [lines[pos][block..]]);
        }
      }
    }
  }
}
