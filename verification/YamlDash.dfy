/** Mappings that open on the line of their dash, `- key: value` with the other entries two
    columns right of the dash: exactly when they read back, and what an empty first value, a block
    scalar there, or a sequence at the indent of its key is read as. */
module YamlDash {
  import opened Text
  import opened YamlText
  import opened YamlSpec
  import opened YamlPrint
  import opened YamlRoundTrip

  /** The lines of an item whose first entry stands on the line of the dash. */
  function DashText(entries: seq<Entry>, d: nat): seq<string>
    requires entries != []
  {
    [Indented(d, "- " + EntryHead(entries[0]))] + AfterDash(entries, d)
  }

  /** The lines below the one of the dash. */
  function AfterDash(entries: seq<Entry>, d: nat): seq<string>
    requires entries != []
  {
    Below(entries[0].val, d + 2) + EntryLines(entries[1..], d + 2)
  }

  /** The first key needs no quotes and the first value is not an empty collection. */
  predicate OpensOnDash(entries: seq<Entry>)
    requires entries != []
  {
    IsWordKey(entries[0].key) && entries[0].val != Seq([]) && entries[0].val != Map([])
  }

  // ---------------------------------------------------------------- the entries below

  lemma {:induction false} ContinuationReads(
      lines: seq<string>, pos: nat, entries: seq<Entry>, cont: nat, acc: seq<Entry>, tail: seq<string>)
    requires pos <= |lines| && Printable(Map(entries)) && DistinctKeys(acc + entries)
    requires Rest(lines, pos) == EntryLines(entries, cont) + tail && EndsBlock(tail, cont)
    ensures var r := Continuation(lines, pos, cont, acc); r.value == acc + entries && Rest(lines, r.pos) == tail
    decreases |entries|
  {
    hide EntryValue, Lead, Strip, LStrip, IsNoise, MatchKey, WithoutComment, DictSet, EntryLines, EntryHead, Below,
         Printable, DistinctKeys, HasKey, EndsBlock;
    if entries == [] {
      assert EntryLines([], cont) + tail == tail by { NoItems(cont); }
      RestAtSkip(lines, pos);
      Ended(lines, pos, cont);
      assert acc + entries == acc;
    } else {
      var e, others := entries[0], entries[1..];
      OtherEntries(entries);
      EntryLinesSplit(entries, cont, tail);
      var more := EntryLines(others, cont) + tail;
      MoreEntriesEnd(others, cont, tail);
      var next := EntryReads(lines, pos, e, cont, more);
      NewKey(acc, entries);
      DictSetNew(acc, e.key, e.val);
      assert Continuation(lines, pos, cont, acc) == Continuation(lines, next, cont, acc + [e]);
      assert acc + [e] + others == acc + entries;
      assert Rest(lines, next) == more;
      ContinuationReads(lines, next, others, cont, acc + [e], tail);
    }
  }

  /** A nested block may be indented by any amount more than base. */
  lemma DeeperReads(lines: seq<string>, pos: nat, v: Value, base: nat, b: nat, tail: seq<string>)
    requires pos <= |lines| && Printable(v) && !IsAtom(v) && base < b
    requires Rest(lines, pos) == BlockText(v, b) + tail && EndsBlock(tail, b)
    ensures NestedValue(lines, pos, base).value == v && Rest(lines, NestedValue(lines, pos, base).pos) == tail
  {
    hide Lead, BlockText, IsNoise, ValueAt;
    RestAtSkip(lines, pos);
    BlockHead(v, b);
    assert lines[SkipNoise(lines, pos)] == (BlockText(v, b) + tail)[0];
    ValueReads(lines, SkipNoise(lines, pos), v, b, tail);
  }

  // ---------------------------------------------------------------- the entry on the dash

  lemma WordHeadOpens(e: Entry)
    requires IsWordKey(e.key)
    ensures OpensDashMapping(EntryHead(e)) && EntryHead(e) != ""
  {
    hide AtomText;
    var head := EntryHead(e);
    assert head[0] == e.key[0] && IsWord(e.key[0]);
    assert head[|e.key|] == ':';
  }

  lemma QuotedHeadIsScalar(lines: seq<string>, pos: nat, d: nat, e: Entry)
    requires pos <= |lines| && !IsWordKey(e.key)
    ensures ItemAt(lines, pos, d, EntryHead(e)) == Parsed(ScalarOf(EntryHead(e)), pos)
  {
    hide AtomText, ScalarOf;
    var head := EntryHead(e);
    assert head[0] == QuoteChar(e.key);
    assert head[..1] == [QuoteChar(e.key)];
  }

  /** The value of the entry on the dash: read as a scalar, or from the lines below. */
  lemma FirstValue(lines: seq<string>, pos: nat, e: Entry, d: nat, more: seq<string>) returns (v: Value, next: nat)
    requires pos <= |lines| && PrintableKey(e.key) && Printable(e.val) && IsWordKey(e.key)
    requires Rest(lines, pos) == Below(e.val, d + 2) + more && EndsBlock(more, d + 4)
    ensures next <= |lines| && Rest(lines, next) == more
    ensures ItemAt(lines, pos, d, EntryHead(e)) == AsMap(Continuation(lines, next, d + 2, [Entry(e.key, v)]))
    ensures v == e.val <==> e.val != Seq([]) && e.val != Map([])
  {
    hide BlockText, AtomText, ScalarOf, WithoutComment, OpensKey, MatchKey, EntryHead, OpensDashMapping, NestedValue,
         Continuation, LStrip, Strip, Trimmed, Printable, EndsBlock, Rest;
    EntryHeadReads(e);
    WordHeadOpens(e);
    assert ItemAt(lines, pos, d, EntryHead(e)) == AsMap(DashMapping(lines, pos, d + 2, EntryHead(e)));
    if IsAtom(e.val) {
      v, next := ScalarOf(AtomText(e.val)), pos;
      AtomScalar(e.val);
      assert [] + more == more;
    } else {
      DeeperReads(lines, pos, e.val, d + 1, d + 4, more);
      v, next := e.val, NestedValue(lines, pos, d + 1).pos;
    }
  }

  function AsMap(p: Parsed<seq<Entry>>): Parsed<Value> {
    Parsed(Map(p.value), p.pos)
  }

  lemma AtomScalar(v: Value)
    requires IsAtom(v) && Printable(v)
    ensures AtomText(v) != ""
    ensures ScalarOf(AtomText(v)) == v <==> v != Seq([]) && v != Map([])
  {
    hide AtomText, ScalarOf, WithoutComment, OpensKey, OpensDashMapping;
    AtomReads(v);
    ScalarIsNoCollection(AtomText(v));
  }

  lemma ScalarIsNoCollection(text: string)
    ensures !ScalarOf(text).Seq? && !ScalarOf(text).Map?
  {
    hide WithoutComment, IsFloatText, IntOf;
  }

  /** An item that opens on the line of its dash reads back exactly when its first key needs no
      quotes and its first value is not an empty collection. */
  lemma DashItemReads(lines: seq<string>, pos: nat, entries: seq<Entry>, d: nat, tail: seq<string>)
    requires pos <= |lines| && entries != [] && Printable(Map(entries))
    requires Rest(lines, pos) == AfterDash(entries, d) + tail && EndsBlock(tail, d + 2)
    ensures var r := ItemAt(lines, pos, d, EntryHead(entries[0]));
            && (r.value == Map(entries) <==> OpensOnDash(entries))
            && (OpensOnDash(entries) ==> Rest(lines, r.pos) == tail)
  {
    hide ItemAt, EntryLines, EntryHead, Printable, EndsBlock, Continuation, Rest, ScalarOf, PrintableKey, Below;
    var e, others := entries[0], entries[1..];
    OtherEntries(entries);
    if !IsWordKey(e.key) {
      QuotedHeadIsScalar(lines, pos, d, e);
      ScalarIsNoCollection(EntryHead(e));
    } else {
      var more := EntryLines(others, d + 2) + tail;
      assert Below(e.val, d + 2) + EntryLines(others, d + 2) + tail == Below(e.val, d + 2) + more;
      MoreEntriesEnd(others, d + 2, tail);
      var v, next := FirstValue(lines, pos, e, d, more);
      KeysAfterFirst(entries, v);
      ContinuationReads(lines, next, others, d + 2, [Entry(e.key, v)], tail);
      assert ([Entry(e.key, v)] + others)[0] == Entry(e.key, v);
      assert [e] + others == entries;
    }
  }

  lemma KeysAfterFirst(entries: seq<Entry>, v: Value)
    requires entries != [] && Printable(Map(entries))
    ensures DistinctKeys([Entry(entries[0].key, v)] + entries[1..])
  {
    hide PrintableKey;
    var changed := [Entry(entries[0].key, v)] + entries[1..];
    assert forall i :: 0 <= i < |entries| ==> changed[i].key == entries[i].key;
  }

  // ---------------------------------------------------------------- sequences of such items

  predicate DashItems(maps: seq<seq<Entry>>) {
    forall i :: 0 <= i < |maps| ==> maps[i] != [] && Printable(Map(maps[i])) && OpensOnDash(maps[i])
  }

  function DashLines(maps: seq<seq<Entry>>, d: nat): seq<string>
    requires DashItems(maps)
  {
    if maps == [] then [] else DashText(maps[0], d) + DashLines(maps[1..], d)
  }

  function MapsOf(maps: seq<seq<Entry>>): seq<Value> {
    seq(|maps|, i requires 0 <= i < |maps| => Map(maps[i]))
  }

  lemma HeadIsTrimmed(e: Entry, d: nat)
    requires PrintableKey(e.key) && Printable(e.val)
    ensures Trimmed("- " + EntryHead(e)) && Strip(("- " + EntryHead(e))[1..]) == EntryHead(e)
    ensures Lead(Indented(d, "- " + EntryHead(e))) == d
  {
    hide EntryHead, MatchKey, OpensKey, WithoutComment, Strip;
    var head := EntryHead(e);
    EntryHeadReads(e);
    assert ("- " + head)[1..] == Spaces(1) + head;
    StripIndented(1, head);
    StripIndented(d, "- " + head);
  }

  lemma DashLinesEnd(maps: seq<seq<Entry>>, d: nat, tail: seq<string>)
    requires DashItems(maps) && EndsBlock(tail, d)
    ensures EndsBlock(DashLines(maps, d) + tail, d + 2)
  {
    hide Lead, EntryHead, Indented, AfterDash;
    if maps != [] {
      OtherEntries(maps[0]);
      HeadIsTrimmed(maps[0][0], d);
    }
  }

  lemma MapsSplit(maps: seq<seq<Entry>>)
    ensures MapsOf(maps) == if maps == [] then [] else [Map(maps[0])] + MapsOf(maps[1..])
  {
  }

  /** A sequence of mappings that open on their dashes reads back, whatever noise lies between
      its lines. */
  lemma {:induction false} DashSequenceReads(
      lines: seq<string>, pos: nat, maps: seq<seq<Entry>>, d: nat, acc: seq<Value>, tail: seq<string>)
    requires pos <= |lines| && DashItems(maps)
    requires Rest(lines, pos) == DashLines(maps, d) + tail && EndsBlock(tail, d)
    ensures var r := SequenceAt(lines, pos, d, acc); r.value == acc + MapsOf(maps) && Rest(lines, r.pos) == tail
    decreases |maps|
  {
    hide ItemAt, Lead, Strip, IsNoise, EntryHead, Printable, EndsBlock, AfterDash, Indented, OpensOnDash, MapsOf;
    MapsSplit(maps);
    if maps == [] {
      assert DashLines(maps, d) + tail == tail;
      RestAtSkip(lines, pos);
      Ended(lines, pos, d);
      assert acc + MapsOf(maps) == acc;
    } else {
      var entries, others := maps[0], maps[1..];
      var p := SkipNoise(lines, pos);
      var more := DashLines(others, d) + tail;
      assert DashLines(maps, d) + tail
          == [Indented(d, "- " + EntryHead(entries[0]))] + (AfterDash(entries, d) + more) by {
        DashLinesSplit(maps, d);
      }
      OtherEntries(entries);
      HeadIsTrimmed(entries[0], d);
      NextLine(lines, pos, d, "- " + EntryHead(entries[0]), AfterDash(entries, d) + more);
      DashLinesEnd(others, d, tail);
      DashItemReads(lines, p + 1, entries, d, more);
      var item := ItemAt(lines, p + 1, d, EntryHead(entries[0]));
      assert SequenceAt(lines, pos, d, acc) == SequenceAt(lines, item.pos, d, acc + [item.value]);
      DashSequenceReads(lines, item.pos, others, d, acc + [Map(entries)], tail);
      assert acc + [Map(entries)] + MapsOf(others) == acc + MapsOf(maps);
    }
  }

  /** The round trip for a document that is such a sequence. */
  lemma DashDocumentReads(lines: seq<string>, maps: seq<seq<Entry>>)
    requires maps != [] && DashItems(maps) && Significant(lines) == DashLines(maps, 0)
    ensures Document(lines) == Seq(MapsOf(maps))
  {
    hide Lead, Strip, IsNoise, EntryHead, Printable, AfterDash, Indented, OpensOnDash, SequenceAt, DashLines, OpensKey;
    var head := "- " + EntryHead(maps[0][0]);
    var below := AfterDash(maps[0], 0) + DashLines(maps[1..], 0);
    assert DashLines(maps, 0) + [] == DashLines(maps, 0) == [Indented(0, head)] + below by { DashLinesSplit(maps, 0); }
    OtherEntries(maps[0]);
    HeadIsTrimmed(maps[0][0], 0);
    NextLine(lines, 0, 0, head, below);
    RestAtSkip(lines, 0);
    DashSequenceReads(lines, SkipNoise(lines, 0), maps, 0, [], []);
    assert [] + MapsOf(maps) == MapsOf(maps);
  }

  lemma DashLinesSplit(maps: seq<seq<Entry>>, d: nat)
    requires maps != [] && DashItems(maps)
    ensures DashLines(maps, d)
         == [Indented(d, "- " + EntryHead(maps[0][0]))] + (AfterDash(maps[0], d) + DashLines(maps[1..], d))
  {
    hide EntryHead, Indented, AfterDash;
  }

  // ---------------------------------------------------------------- an empty first value

  /** A key without a value on the line of the dash takes all entries below it as its value. They
      are read as its siblings, and the key as null, exactly when there are none. */
  lemma EmptyFirstValueSwallows(
      lines: seq<string>, pos: nat, key: string, entries: seq<Entry>, d: nat, tail: seq<string>)
    requires pos <= |lines| && IsWordKey(key) && Printable(Map(entries))
    requires Rest(lines, pos) == EntryLines(entries, d + 2) + tail && EndsBlock(tail, d + 2)
    ensures var r := ItemAt(lines, pos, d, key + ":");
            && r.value == Map([Entry(key, if entries == [] then Null else Map(entries))]) && Rest(lines, r.pos) == tail
            && (r.value == Map([Entry(key, Null)] + entries) <==> entries == [])
  {
    hide EntryLines, Printable, EndsBlock, NestedValue, Continuation;
    var next := NestedValue(lines, pos, d + 1).pos;
    var v := if entries == [] then Null else Map(entries);
    var e := Entry(key, v);
    EmptyHeadOpens(lines, pos, key, d);
    NoItems(d + 2);
    assert EntryLines([], d + 2) + tail == tail;
    if entries == [] {
      NothingDeeper(lines, pos, d + 1, tail);
    } else {
      assert BlockText(Map(entries), d + 2) == EntryLines(entries, d + 2);
      DeeperReads(lines, pos, Map(entries), d + 1, d + 2, tail);
    }
    assert NestedValue(lines, pos, d + 1).value == v && Rest(lines, next) == tail;
    NothingToPrint();
    ContinuationReads(lines, next, [], d + 2, [e], tail);
    assert [e] + [] == [e];
    assert ([Entry(key, Null)] + entries)[0] == Entry(key, Null);
    assert entries == [] ==> [Entry(key, Null)] + entries == [e];
  }

  lemma NothingDeeper(lines: seq<string>, pos: nat, base: nat, tail: seq<string>)
    requires pos <= |lines| && Rest(lines, pos) == tail && EndsBlock(tail, base + 1)
    ensures NestedValue(lines, pos, base).value == Null && Rest(lines, NestedValue(lines, pos, base).pos) == tail
  {
    hide Lead, IsNoise, ValueAt;
    RestAtSkip(lines, pos);
    Ended(lines, pos, base + 1);
  }

  lemma EmptyHeadOpens(lines: seq<string>, pos: nat, key: string, d: nat)
    requires pos <= |lines| && IsWordKey(key)
    ensures var v := NestedValue(lines, pos, d + 1);
            ItemAt(lines, pos, d, key + ":") == AsMap(Continuation(lines, v.pos, d + 2, [Entry(key, v.value)]))
  {
    hide NestedValue, OpensDashMapping, MatchKey, WithoutComment, Continuation, LStrip, Strip, KeyText;
    assert KeyText(key) == key by { WordKeyText(key); }
    assert key + ":" == KeyText(key) + ":" + "";
    KeyReads(key, "");
    NothingAfterKey();
    WordColonOpens(key, "");
  }

  lemma WordColonOpens(key: string, rest: string)
    requires IsWordKey(key)
    ensures OpensDashMapping(key + ":" + rest) && key + ":" + rest != ""
  {
    var head := key + ":" + rest;
    assert head[0] == key[0] && IsWord(key[0]);
    assert head[|key|] == ':';
  }

  lemma WordKeyText(key: string)
    requires IsWordKey(key)
    ensures KeyText(key) == key && PrintableKey(key)
  {
  }

  lemma NothingToPrint()
    ensures Printable(Map([])) && forall e: Entry :: DistinctKeys([e] + [])
  {
  }

  // ---------------------------------------------------------------- a block scalar on the dash

  /** A block indicator after a key on the line of the dash is read as a string, and the lines below
      as entries: when none stands at dash + 2, the item has that one entry, whatever text the block
      has. A text line deeper than that also ends the sequence. */
  lemma DashBlockIsNotRead(lines: seq<string>, pos: nat, key: string, ind: string, d: nat, acc: seq<Value>)
    requires pos <= |lines| && IsWordKey(key) && IsBlockIndicator(ind)
    ensures var r := ItemAt(lines, pos, d, key + ": " + ind);
            var p := SkipNoise(lines, pos);
            && r == AsMap(Continuation(lines, pos, d + 2, [Entry(key, Str(ind))]))
            && (p == |lines| || Lead(lines[p]) != d + 2 ==>
                  && r == Parsed(Map([Entry(key, Str(ind))]), p)
                  && r.value != Map([Entry(key, Str(BlockScalarAt(lines, pos, ind, d + 2).value))]))
            && (Deeper(lines, p, d + 2) ==> SequenceAt(lines, p, d, acc) == Parsed(acc, p))
  {
    hide OpensDashMapping, MatchKey, WithoutComment, ScalarOf, NestedValue, LStrip, Strip, Lead, KeyText, BlockLines,
         DropTrailingEmpty, Fold, DictSet, EntryValue, ItemAt, IsNoise;
    assert KeyText(key) == key by { WordKeyText(key); }
    assert key + ": " + ind == KeyText(key) + ":" + (" " + ind);
    KeyReads(key, " " + ind);
    IndicatorIsText(ind);
    WordColonOpens(key, " " + ind);
    DashOpens(lines, pos, d, key + ": " + ind);
    BlockIsNoIndicator(lines, pos, ind, d + 2);
  }

  lemma DashOpens(lines: seq<string>, pos: nat, d: nat, head: string)
    requires pos <= |lines| && head != "" && OpensDashMapping(head)
    ensures ItemAt(lines, pos, d, head) == AsMap(DashMapping(lines, pos, d + 2, head))
  {
    hide DashMapping, OpensDashMapping, NestedValue;
  }

  predicate IndicatorChar(c: char) {
    c == '|' || c == '>' || c == '+' || c == '-'
  }

  lemma IndicatorChars(ind: string)
    requires IsBlockIndicator(ind)
    ensures 1 <= |ind| <= 2 && (ind[0] == '|' || ind[0] == '>') && IndicatorChar(ind[|ind| - 1])
  {
  }

  lemma IndicatorIsText(ind: string)
    requires IsBlockIndicator(ind)
    ensures LStrip(" " + ind) == ind && WithoutComment(ind) == ind && ScalarOf(ind) == Str(ind)
  {
    hide IsBlockIndicator, WithoutComment, LStrip, Strip, ScalarOf;
    IndicatorChars(ind);
    assert " " + ind == Spaces(1) + ind;
    StripIndented(1, ind);
    Uncommented(ind);
    IndicatorScalar(ind);
  }

  lemma IndicatorScalar(ind: string)
    requires 1 <= |ind| <= 2 && (ind[0] == '|' || ind[0] == '>') && IndicatorChar(ind[|ind| - 1])
    requires WithoutComment(ind) == ind
    ensures ScalarOf(ind) == Str(ind)
  {
    hide WithoutComment, DecimalOf;
    assert Lower(ind)[0] == ind[0];
    assert !StartsWith(ind, "'") && !StartsWith(ind, "\"");
    assert '.' !in ind;
    assert DropSign(ind) == ind && !IsDigit(ind[0]);
  }

  lemma BlockIsNoIndicator(lines: seq<string>, pos: nat, ind: string, base: nat)
    requires pos <= |lines| && IsBlockIndicator(ind)
    ensures BlockScalarAt(lines, pos, ind, base).value != ind
  {
    hide BlockLines, DropTrailingEmpty, Fold, Join;
    var t := BlockScalarAt(lines, pos, ind, base).value;
    assert t == "" || t[|t| - 1] == '\n';
  }

  // ---------------------------------------------------------------- a sequence below its key

  /** The dash of a sequence that stands at the indent of its key. */
  predicate IsDash(stripped: string) {
    StartsWith(stripped, "- ") || stripped == "-"
  }

  /** No entry of a mapping at this indent comes next. */
  predicate NoEntryNext(lines: seq<string>, p: nat, base: nat) {
    p >= |lines| || Lead(lines[p]) != base || StartsWith(Strip(lines[p]), "- ")
  }

  /** A sequence that is not deeper than its key is not the key's value, but null is. A dash with text
      after it ends the mapping. A bare dash is skipped; the mapping ends after it exactly when no
      entry comes next. */
  lemma FlushSequenceIsNotRead(lines: seq<string>, pos: nat, base: nat, acc: seq<Entry>)
    requires pos <= |lines| && SkipNoise(lines, pos) < |lines|
    requires var line := lines[SkipNoise(lines, pos)]; Lead(line) == base && IsDash(Strip(line))
    ensures var p := SkipNoise(lines, pos);
            var q := SkipNoise(lines, p + 1);
            var r := MappingAt(lines, p, base, acc);
            && EntryValue(lines, pos, base, "") == Parsed(Null, p)
            && (r == Parsed(acc, p) <==> Strip(lines[p]) != "-")
            && (Strip(lines[p]) == "-" ==> r == MappingAt(lines, p + 1, base, acc))
            && (Strip(lines[p]) == "-" ==> (r == Parsed(acc, q) <==> NoEntryNext(lines, q, base)))
  {
    hide Lead, Strip, LStrip, IsNoise, ValueAt, MatchKey, WithoutComment, EntryValue, DictSet;
    EntryValueNested(lines, pos, base);
    var p := SkipNoise(lines, pos);
    assert SkipNoise(lines, p) == p;
    if Strip(lines[p]) == "-" {
      BareDashIsNoKey(lines[p]);
      MappingEnds(lines, p + 1, base, acc);
    }
  }

  /** A mapping takes nothing exactly when no entry comes next. */
  lemma MappingEnds(lines: seq<string>, pos: nat, base: nat, acc: seq<Entry>)
    requires pos <= |lines|
    ensures var q := SkipNoise(lines, pos);
            MappingAt(lines, pos, base, acc) == Parsed(acc, q) <==> NoEntryNext(lines, q, base)
  {
    hide Lead, Strip, LStrip, IsNoise, MatchKey, WithoutComment, EntryValue, DictSet;
  }

  lemma BareDashIsNoKey(line: string)
    requires Strip(line) == "-"
    ensures MatchKey(LStrip(line)).None? && !StartsWith("-", "- ")
  {
    hide WordRun, LStrip;
    var s := LStrip(line);
    RStripRest(s);
    assert s[..1] == "-" && s[0] == '-';
    assert IsWord('-');
    SpaceAfterTrim(s);
    WordRunMeaning(s, 1);
    OnlySpace(s[1..]);
  }

  lemma {:induction false} SpaceAfterTrim(s: string)
    ensures forall i :: |RStrip(s)| <= i < |s| ==> IsSpace(s[i])
  {
    if s != "" && IsSpace(s[|s| - 1]) {
      SpaceAfterTrim(s[..|s| - 1]);
    }
  }

  lemma {:induction false} OnlySpace(s: string)
    requires forall i :: 0 <= i < |s| ==> IsSpace(s[i])
    ensures LStrip(s) == ""
  {
    if s != "" {
      OnlySpace(s[1..]);
    }
  }

  /** A printed sequence at the indent of its key ends the mapping, whatever its first item is: below
      a bare dash comes a deeper line. */
  lemma PrintedFlushSequence(
      lines: seq<string>, pos: nat, items: seq<Value>, base: nat, acc: seq<Entry>, tail: seq<string>)
    requires pos <= |lines| && items != [] && Printable(Seq(items))
    requires Rest(lines, pos) == ItemLines(items, base) + tail
    ensures EntryValue(lines, pos, base, "").value == Null
    ensures MappingAt(lines, SkipNoise(lines, pos), base, acc).value == acc
  {
    hide ItemLines, ItemHead, BlockText, Lead, Strip, ValueAt, MappingAt, EntryValue;
    var v := items[0];
    assert Printable(v);
    ItemHeadReads(v);
    ItemLinesSplit(items, base, tail);
    var more := ItemLines(items[1..], base) + tail;
    NextLine(lines, pos, base, ItemHead(v), Below(v, base) + more);
    FlushSequenceIsNotRead(lines, pos, base, acc);
    var p := SkipNoise(lines, pos);
    if ItemHead(v) == "-" {
      assert !IsAtom(v) by { AtomHead(v); }
      BlockHead(v, base + 2);
      RestAtSkip(lines, p + 1);
      assert lines[SkipNoise(lines, p + 1)] == (BlockText(v, base + 2) + more)[0];
    }
  }

  lemma AtomHead(v: Value)
    ensures ItemHead(v) == "-" ==> !IsAtom(v)
  {
    hide AtomText;
  }

  /** Entries after a bare dash at their indent are read as if the dash were not there. */
  lemma BareDashIsSkipped(
      lines: seq<string>, pos: nat, entries: seq<Entry>, base: nat, acc: seq<Entry>, tail: seq<string>)
    requires pos <= |lines| && Printable(Map(entries)) && DistinctKeys(acc + entries)
    requires Rest(lines, pos) == [Indented(base, "-")] + (EntryLines(entries, base) + tail) && EndsBlock(tail, base)
    ensures EntryValue(lines, pos, base, "").value == Null
    ensures var r := MappingAt(lines, SkipNoise(lines, pos), base, acc);
            r.value == acc + entries && Rest(lines, r.pos) == tail
  {
    hide EntryLines, Lead, Strip, ValueAt, MappingAt, EntryValue, EndsBlock, Printable, DistinctKeys;
    NextLine(lines, pos, base, "-", EntryLines(entries, base) + tail);
    FlushSequenceIsNotRead(lines, pos, base, acc);
    EntriesRead(lines, SkipNoise(lines, pos) + 1, entries, base, acc, tail);
  }

  /** A printed sequence under a key at indent base is the key's value exactly when it is deeper. */
  lemma SequenceUnderKey(lines: seq<string>, pos: nat, items: seq<Value>, base: nat, b: nat, tail: seq<string>)
    requires pos <= |lines| && items != [] && Printable(Seq(items))
    requires Rest(lines, pos) == ItemLines(items, b) + tail && EndsBlock(tail, b)
    ensures EntryValue(lines, pos, base, "").value == Seq(items) <==> b > base
  {
    hide Lead, Strip, IsNoise, ValueAt, ItemLines, Printable, EndsBlock;
    EntryValueNested(lines, pos, base);
    if b > base {
      assert BlockText(Seq(items), b) == ItemLines(items, b);
      DeeperReads(lines, pos, Seq(items), base, b, tail);
    } else {
      FirstItemLine(lines, pos, items, b, tail);
    }
  }
}
