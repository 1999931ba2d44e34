/** Parsing what the printer printed gives the tree back, whatever blank and comment lines
    have been inserted between the printed lines. */
module YamlRoundTrip {
  import opened Text
  import opened YamlText
  import opened YamlSpec
  import opened YamlPrint

  /** The significant lines from pos on. */
  function Rest(lines: seq<string>, pos: nat): seq<string>
    requires pos <= |lines|
    decreases |lines| - pos
  {
    if pos == |lines| then []
    else if IsNoise(lines[pos]) then Rest(lines, pos + 1)
    else [lines[pos]] + Rest(lines, pos + 1)
  }

  function Significant(lines: seq<string>): seq<string> {
    Rest(lines, 0)
  }

  lemma {:induction false} RestAtSkip(lines: seq<string>, pos: nat)
    requires pos <= |lines|
    ensures var p := SkipNoise(lines, pos);
            && Rest(lines, p) == Rest(lines, pos)
            && Rest(lines, pos) == (if p == |lines| then [] else [lines[p]] + Rest(lines, p + 1))
    decreases |lines| - pos
  {
    if pos < |lines| && IsNoise(lines[pos]) {
      RestAtSkip(lines, pos + 1);
    }
  }

  /** Reading the next significant line, known to be an indented body. */
  lemma NextLine(lines: seq<string>, pos: nat, d: nat, body: string, tail: seq<string>)
    requires pos <= |lines| && Trimmed(body)
    requires Rest(lines, pos) == [Indented(d, body)] + tail
    ensures var p := SkipNoise(lines, pos);
            && p < |lines| && lines[p] == Indented(d, body) && Rest(lines, p + 1) == tail
            && Lead(lines[p]) == d && Strip(lines[p]) == body && LStrip(lines[p]) == body
  {
    RestAtSkip(lines, pos);
    var p := SkipNoise(lines, pos);
    assert ([lines[p]] + Rest(lines, p + 1))[1..] == Rest(lines, p + 1);
    assert ([Indented(d, body)] + tail)[1..] == tail;
    StripIndented(d, body);
  }

  /** What follows a block at indent d: nothing, or a less indented line. */
  predicate EndsBlock(tail: seq<string>, d: nat) {
    tail == [] || Lead(tail[0]) < d
  }

  lemma Ended(lines: seq<string>, pos: nat, d: nat)
    requires pos <= |lines| && EndsBlock(Rest(lines, pos), d)
    ensures var p := SkipNoise(lines, pos); p == |lines| || Lead(lines[p]) < d
  {
    RestAtSkip(lines, pos);
  }

  // ---------------------------------------------------------------- one line at a time

  lemma ItemLineReads(a: string, v: Value)
    requires ReadsAs(a, v)
    ensures Trimmed("- " + a) && Strip(("- " + a)[1..]) == a
  {
    hide Strip, ScalarOf, WithoutComment, OpensKey, OpensDashMapping;
    assert ("- " + a)[1..] == Spaces(1) + a;
    StripIndented(1, a);
  }

  lemma {:induction false} WordRunMeaning(s: string, n: nat)
    requires n <= |s| && forall i :: 0 <= i < n ==> IsWord(s[i])
    requires n < |s| ==> !IsWord(s[n])
    ensures WordRun(s) == n
  {
    if n > 0 {
      WordRunMeaning(s[1..], n - 1);
    }
  }

  lemma DropQuotesUnfolds(s: string)
    ensures DropQuotes(s)
         == if s != "" && s[0] in "'\"" then DropQuotes(s[1..])
            else if s != "" && s[|s| - 1] in "'\"" then DropQuotes(s[..|s| - 1])
            else s
  {
  }

  lemma DropQuotesOfQuoted(k: string)
    requires DropQuotes(k) == k
    ensures DropQuotes(Quoted(k)) == k
  {
    var q := Quoted(k);
    assert q[1..] == k + [QuoteChar(k)];
    if k == "" {
      assert DropQuotes(q) == DropQuotes(q[1..]);
      assert q[1..][1..] == k;
    } else {
      assert k[0] !in "'\"" by {
        if k[0] in "'\"" { DropQuotesShrinks(k[1..]); }
      }
      assert q[1..][..|k|] == k;
      assert DropQuotes(q) == DropQuotes(q[1..]) == DropQuotes(k);
    }
  }

  lemma {:induction false} DropQuotesShrinks(s: string)
    ensures |DropQuotes(s)| <= |s|
  {
    if s != "" && s[0] in "'\"" {
      DropQuotesShrinks(s[1..]);
    } else if s != "" && s[|s| - 1] in "'\"" {
      DropQuotesShrinks(s[..|s| - 1]);
    }
  }

  lemma WordKeyReads(k: string, rest: string)
    requires IsWordKey(k)
    ensures KeyToken(k + ":" + rest) == Some(|k|) && DropQuotes(k) == k
  {
    hide WordRun, Find;
    var s := k + ":" + rest;
    assert s[..|k|] == k && s[|k|] == ':';
    assert forall i :: 0 <= i < |k| ==> s[i] == k[i];
    WordRunMeaning(s, |k|);
    assert IsWord(k[0]) && IsWord(k[|k| - 1]);
  }

  lemma QuotedKeyReads(k: string, rest: string)
    requires IsSimple(k) && DropQuotes(k) == k
    ensures KeyToken(Quoted(k) + ":" + rest) == Some(|Quoted(k)|) && DropQuotes(Quoted(k)) == k
  {
    hide DropQuotes, WordRun, Find;
    var s := Quoted(k) + ":" + rest;
    assert s[0] == QuoteChar(k) && s[1..] == k + ([QuoteChar(k)] + ":" + rest);
    assert s[1..][..|k|] == k;
    FindFirst(s[1..], QuoteChar(k), |k|);
    DropQuotesOfQuoted(k);
  }

  lemma KeyTokenReads(k: string, rest: string)
    requires PrintableKey(k)
    ensures KeyToken(KeyText(k) + ":" + rest) == Some(|KeyText(k)|) && DropQuotes(KeyText(k)) == k
  {
    hide KeyToken, DropQuotes, IsWordKey, Quoted, IsSimple;
    if IsWordKey(k) {
      WordKeyReads(k, rest);
    } else {
      QuotedKeyReads(k, rest);
    }
  }

  lemma KeyReads(k: string, rest: string)
    requires PrintableKey(k)
    ensures MatchKey(KeyText(k) + ":" + rest) == Some(KeyLine(k, LStrip(rest)))
  {
    hide KeyToken, DropQuotes, KeyText;
    var s, n := KeyText(k) + ":" + rest, |KeyText(k)|;
    KeyTokenReads(k, rest);
    assert s[..n] == KeyText(k) && s[n..] == ":" + rest;
    assert (":" + rest)[1..] == rest;
  }

  lemma WordKeyStart(k: string, rest: string)
    requires IsWordKey(k)
    ensures QuoteAt(k + rest, |k|) == Outside && (k + rest)[0] !in "-#{[" && !IsSpace((k + rest)[0])
  {
    hide QuoteAt;
    assert forall i :: 0 <= i < |k| ==> (k + rest)[i] == k[i] && IsWord(k[i]);
    NoQuotesOutside(k + rest, |k|);
  }

  lemma QuotedKeyStart(k: string, rest: string)
    requires IsSimple(k)
    ensures var q := Quoted(k); QuoteAt(q + rest, |q|) == Outside && (q + rest)[0] !in "-#{[" && !IsSpace((q + rest)[0])
  {
    hide QuoteAt;
    QuotesAfter(k, rest);
    assert (Quoted(k) + rest)[0] == QuoteChar(k);
  }

  lemma KeyOpens(k: string, rest: string)
    requires PrintableKey(k) && (rest == "" || rest[0] == ' ')
    ensures OpensKey(KeyText(k) + ":" + rest)
    ensures (KeyText(k) + ":" + rest)[0] !in "-#" && !IsSpace((KeyText(k) + ":" + rest)[0])
  {
    hide QuoteAt, DropQuotes, IsWordKey, Quoted, IsSimple;
    var s, n := KeyText(k) + ":" + rest, |KeyText(k)|;
    assert s[n] == ':' && (n + 1 < |s| ==> s[n + 1] == rest[0]);
    assert QuoteAt(s, n) == Outside && s[0] !in "-#{[" && !IsSpace(s[0]) by {
      if IsWordKey(k) {
        WordKeyStart(k, ":" + rest);
      } else {
        QuotedKeyStart(k, ":" + rest);
      }
      assert s == KeyText(k) + (":" + rest);
    }
    assert IsKeyColon(s, n);
    assert s[..1] == [s[0]];
  }

  /** The head of an entry: its key is recognised and the text after the colon is the atom's. */
  lemma EntryHeadReads(e: Entry)
    requires PrintableKey(e.key) && Printable(e.val)
    ensures var body := EntryHead(e);
            && Trimmed(body) && body[0] !in "-#" && OpensKey(body)
            && MatchKey(body).Some? && MatchKey(body).value.key == e.key
            && WithoutComment(MatchKey(body).value.rest) == if IsAtom(e.val) then AtomText(e.val) else ""
  {
    hide OpensKey, MatchKey, KeyText, ScalarOf, OpensDashMapping, LStrip, AtomText, WithoutComment, PrintableKey;
    if IsAtom(e.val) {
      var a := AtomText(e.val);
      AtomReads(e.val);
      KeyReads(e.key, " " + a);
      KeyOpens(e.key, " " + a);
      StripIndented(1, a);
      assert Spaces(1) + a == " " + a;
    } else {
      KeyReads(e.key, "");
      KeyOpens(e.key, "");
      NothingAfterKey();
      assert EntryHead(e) == KeyText(e.key) + ":" + "";
    }
  }

  lemma NothingAfterKey()
    ensures WithoutComment(LStrip("")) == ""
  {
  }

  lemma ItemAtAtom(lines: seq<string>, pos: nat, d: nat, v: Value)
    requires pos <= |lines| && IsAtom(v) && Printable(v)
    ensures ItemAt(lines, pos, d, AtomText(v)) == Parsed(v, pos)
  {
    hide ScalarOf, WithoutComment, OpensKey, OpensDashMapping, FlowSeqOf, FlowMapOf, AtomText, Printable, NestedValue;
    AtomReads(v);
    EmptyFlow();
  }

  lemma ItemAtNested(lines: seq<string>, pos: nat, d: nat)
    requires pos <= |lines|
    ensures ItemAt(lines, pos, d, "") == NestedValue(lines, pos, d)
  {
    hide NestedValue;
  }

  lemma EntryValueAtom(lines: seq<string>, pos: nat, d: nat, v: Value)
    requires pos <= |lines| && IsAtom(v) && Printable(v)
    ensures EntryValue(lines, pos, d, AtomText(v)) == Parsed(v, pos)
  {
    hide ScalarOf, WithoutComment, OpensKey, OpensDashMapping, FlowSeqOf, FlowMapOf, AtomText, Printable, NestedValue,
         BlockScalarAt;
    AtomReads(v);
    EmptyFlow();
  }

  lemma EntryValueNested(lines: seq<string>, pos: nat, d: nat)
    requires pos <= |lines|
    ensures EntryValue(lines, pos, d, "") == NestedValue(lines, pos, d)
  {
    hide NestedValue;
  }

  lemma NoFlowItems()
    ensures Inner("[]") == "" && Inner("{}") == "" && Strip("") == "" && FlowItems("") == []
    ensures StartsWith("[]", "[") && EndsWith("[]", "]") && StartsWith("{}", "{") && EndsWith("{}", "}")
  {
  }

  lemma NoFlowPairs()
    ensures FlowPairs([], []) == []
  {
  }

  lemma EmptyFlow()
    ensures FlowSeqOf("[]") == Seq([]) && FlowMapOf("{}") == Map([])
  {
    hide FlowItems, Strip, ScalarOf, FlowPairs, Inner, EndsWith, StartsWith;
    StripTrimmed("[]");
    StripTrimmed("{}");
    NoFlowItems();
    NoFlowPairs();
    assert FlowSeqOf("[]").items == [];
    assert FlowMapOf("{}") == Map(FlowPairs([], []));
  }

  // ---------------------------------------------------------------- blocks

  /** The line that opens an item. */
  function ItemHead(v: Value): string {
    if IsAtom(v) then "- " + AtomText(v) else "-"
  }

  /** The lines below the one that opens an item or an entry with value v at indent d. */
  function Below(v: Value, d: nat): seq<string> {
    if IsAtom(v) then [] else BlockText(v, d + 2)
  }

  lemma ItemLinesSplit(items: seq<Value>, d: nat, tail: seq<string>)
    requires items != []
    ensures ItemLines(items, d) + tail
         == [Indented(d, ItemHead(items[0]))] + (Below(items[0], d) + (ItemLines(items[1..], d) + tail))
  {
    hide Indented, AtomText;
  }

  lemma EntryLinesSplit(entries: seq<Entry>, d: nat, tail: seq<string>)
    requires entries != []
    ensures EntryLines(entries, d) + tail
         == [Indented(d, EntryHead(entries[0]))] + (Below(entries[0].val, d) + (EntryLines(entries[1..], d) + tail))
  {
    hide Indented, EntryHead;
  }

  lemma ItemHeadReads(v: Value)
    requires Printable(v)
    ensures var h := ItemHead(v);
            && Trimmed(h) && (StartsWith(h, "- ") || h == "-") && StartsWith(h, "-")
            && Strip(h[1..]) == if IsAtom(v) then AtomText(v) else ""
  {
    hide AtomText, ScalarOf, WithoutComment, OpensKey, OpensDashMapping;
    if IsAtom(v) {
      AtomReads(v);
      ItemLineReads(AtomText(v), v);
    } else {
      assert Strip("-"[1..]) == "";
    }
  }

  lemma BlockHead(v: Value, d: nat)
    requires !IsAtom(v) && Printable(v)
    ensures BlockText(v, d) != [] && Lead(BlockText(v, d)[0]) == d
  {
    if v.Seq? {
      ItemsHead(v.items, d);
    } else {
      EntriesHead(v.entries, d);
    }
  }

  lemma ItemsHead(items: seq<Value>, d: nat)
    requires items != [] && Printable(Seq(items))
    ensures ItemLines(items, d) != [] && Lead(ItemLines(items, d)[0]) == d
  {
    hide ItemLines, Lead;
    ItemLinesSplit(items, d, []);
    assert ItemLines(items, d) + [] == ItemLines(items, d);
    assert Printable(items[0]);
    ItemHeadReads(items[0]);
    StripIndented(d, ItemHead(items[0]));
  }

  lemma EntriesHead(entries: seq<Entry>, d: nat)
    requires entries != [] && Printable(Map(entries))
    ensures EntryLines(entries, d) != [] && Lead(EntryLines(entries, d)[0]) == d
  {
    hide EntryLines, Lead;
    EntryLinesSplit(entries, d, []);
    assert EntryLines(entries, d) + [] == EntryLines(entries, d);
    EntryHeadReads(entries[0]);
    StripIndented(d, EntryHead(entries[0]));
  }

  lemma {:induction false} ValueReads(lines: seq<string>, pos: nat, v: Value, d: nat, tail: seq<string>)
    requires pos <= |lines| && Printable(v) && !IsAtom(v)
    requires Rest(lines, pos) == BlockText(v, d) + tail && EndsBlock(tail, d)
    ensures ValueAt(lines, pos).value == v && Rest(lines, ValueAt(lines, pos).pos) == tail
    decreases v, 3
  {
    hide OpensKey, Strip, Lead, IsNoise, ItemLines, EntryLines, SequenceAt, MappingAt;
    RestAtSkip(lines, pos);
    var p := SkipNoise(lines, pos);
    if v.Seq? {
      ItemsRead(lines, p, v.items, d, [], tail);
      FirstItemLine(lines, pos, v.items, d, tail);
    } else {
      EntriesRead(lines, p, v.entries, d, [], tail);
      FirstEntryLine(lines, pos, v.entries, d, tail);
    }
  }

  lemma FirstItemLine(lines: seq<string>, pos: nat, items: seq<Value>, d: nat, tail: seq<string>)
    requires pos <= |lines| && items != [] && Printable(Seq(items))
    requires Rest(lines, pos) == ItemLines(items, d) + tail
    ensures var p := SkipNoise(lines, pos);
            && p < |lines| && Lead(lines[p]) == d
            && (StartsWith(Strip(lines[p]), "- ") || Strip(lines[p]) == "-")
  {
    hide ItemLines, ItemHead, Lead, Strip;
    assert Printable(items[0]);
    ItemHeadReads(items[0]);
    ItemLinesSplit(items, d, tail);
    NextLine(lines, pos, d, ItemHead(items[0]), Below(items[0], d) + (ItemLines(items[1..], d) + tail));
  }

  lemma FirstEntryLine(lines: seq<string>, pos: nat, entries: seq<Entry>, d: nat, tail: seq<string>)
    requires pos <= |lines| && entries != [] && Printable(Map(entries))
    requires Rest(lines, pos) == EntryLines(entries, d) + tail
    ensures var p := SkipNoise(lines, pos);
            && p < |lines| && Lead(lines[p]) == d && OpensKey(Strip(lines[p]))
            && !StartsWith(Strip(lines[p]), "- ") && Strip(lines[p]) != "-"
  {
    hide EntryLines, EntryHead, Lead, Strip, OpensKey;
    EntryHeadReads(entries[0]);
    EntryLinesSplit(entries, d, tail);
    NextLine(lines, pos, d, EntryHead(entries[0]), Below(entries[0].val, d) + (EntryLines(entries[1..], d) + tail));
  }

  /** A nested block on the lines after a dash or a key at indent d. */
  lemma {:induction false} NestedReads(lines: seq<string>, pos: nat, v: Value, d: nat, tail: seq<string>)
    requires pos <= |lines| && Printable(v) && !IsAtom(v)
    requires Rest(lines, pos) == BlockText(v, d + 2) + tail && EndsBlock(tail, d + 2)
    ensures NestedValue(lines, pos, d).value == v && Rest(lines, NestedValue(lines, pos, d).pos) == tail
    decreases v, 4
  {
    hide Lead, BlockText, IsNoise, ValueAt;
    RestAtSkip(lines, pos);
    BlockHead(v, d + 2);
    assert lines[SkipNoise(lines, pos)] == (BlockText(v, d + 2) + tail)[0];
    ValueReads(lines, SkipNoise(lines, pos), v, d + 2, tail);
  }

  lemma {:induction false} ItemsRead(
      lines: seq<string>, pos: nat, items: seq<Value>, d: nat, acc: seq<Value>, tail: seq<string>)
    requires pos <= |lines| && Printable(Seq(items))
    requires Rest(lines, pos) == ItemLines(items, d) + tail && EndsBlock(tail, d)
    ensures var r := SequenceAt(lines, pos, d, acc); r.value == acc + items && Rest(lines, r.pos) == tail
    decreases items, 0
  {
    hide ItemAt, Lead, Strip, IsNoise, ItemLines, ItemHead, Below, Printable, EndsBlock;
    if items == [] {
      assert ItemLines([], d) + tail == tail by { NoItems(d); }
      RestAtSkip(lines, pos);
      Ended(lines, pos, d);
    } else {
      var v, others := items[0], items[1..];
      OtherItems(items);
      ItemLinesSplit(items, d, tail);
      var more := ItemLines(others, d) + tail;
      MoreItemsEnd(others, d, tail);
      var next := ItemReads(lines, pos, v, d, more);
      assert SequenceAt(lines, pos, d, acc) == SequenceAt(lines, next, d, acc + [v]);
      ItemsRead(lines, next, others, d, acc + [v], tail);
      assert acc + [v] + others == acc + items;
    }
  }

  lemma NoItems(d: nat)
    ensures ItemLines([], d) == [] && EntryLines([], d) == []
  {
  }

  lemma MoreItemsEnd(others: seq<Value>, d: nat, tail: seq<string>)
    requires Printable(Seq(others)) && EndsBlock(tail, d)
    ensures EndsBlock(ItemLines(others, d) + tail, d + 2)
  {
    if others != [] { ItemsHead(others, d); }
  }

  lemma MoreEntriesEnd(others: seq<Entry>, d: nat, tail: seq<string>)
    requires Printable(Map(others)) && EndsBlock(tail, d)
    ensures EndsBlock(EntryLines(others, d) + tail, d + 2)
  {
    if others != [] { EntriesHead(others, d); }
  }

  lemma {:induction false} ItemReads(
      lines: seq<string>, pos: nat, v: Value, d: nat, more: seq<string>) returns (next: nat)
    requires pos <= |lines| && Printable(v) && EndsBlock(more, d + 2)
    requires Rest(lines, pos) == [Indented(d, ItemHead(v))] + (Below(v, d) + more)
    ensures var p := SkipNoise(lines, pos);
            && p < |lines| && Lead(lines[p]) == d && StartsWith(Strip(lines[p]), "-")
            && ItemAt(lines, p + 1, d, Strip(Strip(lines[p])[1..])) == Parsed(v, next)
            && p < next <= |lines| && Rest(lines, next) == more
    decreases v, 5
  {
    hide BlockText, AtomText, OpensDashMapping, ItemHead, Lead, Strip, NestedValue, ItemAt, Printable, EndsBlock,
         IsNoise, SkipNoise, Trimmed, StartsWith, Rest;
    var p := SkipNoise(lines, pos);
    ItemHeadReads(v);
    NextLine(lines, pos, d, ItemHead(v), Below(v, d) + more);
    if IsAtom(v) {
      ItemAtAtom(lines, p + 1, d, v);
      next := p + 1;
      assert [] + more == more;
    } else {
      ItemAtNested(lines, p + 1, d);
      NestedReads(lines, p + 1, v, d, more);
      next := NestedValue(lines, p + 1, d).pos;
    }
  }

  lemma {:induction false} EntriesRead(
      lines: seq<string>, pos: nat, entries: seq<Entry>, d: nat, acc: seq<Entry>, tail: seq<string>)
    requires pos <= |lines| && Printable(Map(entries)) && DistinctKeys(acc + entries)
    requires Rest(lines, pos) == EntryLines(entries, d) + tail && EndsBlock(tail, d)
    ensures var r := MappingAt(lines, pos, d, acc); r.value == acc + entries && Rest(lines, r.pos) == tail
    decreases entries, 0
  {
    hide EntryValue, Lead, Strip, LStrip, IsNoise, MatchKey, WithoutComment, DictSet, EntryLines, EntryHead, Below,
         Printable, DistinctKeys, HasKey, EndsBlock;
    if entries == [] {
      assert EntryLines([], d) + tail == tail by { NoItems(d); }
      RestAtSkip(lines, pos);
      Ended(lines, pos, d);
      assert acc + entries == acc;
    } else {
      var e, others := entries[0], entries[1..];
      OtherEntries(entries);
      EntryLinesSplit(entries, d, tail);
      var more := EntryLines(others, d) + tail;
      MoreEntriesEnd(others, d, tail);
      var next := EntryReads(lines, pos, e, d, more);
      NewKey(acc, entries);
      DictSetNew(acc, e.key, e.val);
      assert MappingAt(lines, pos, d, acc) == MappingAt(lines, next, d, acc + [e]);
      assert acc + [e] + others == acc + entries;
      assert Rest(lines, next) == more;
      EntriesRead(lines, next, others, d, acc + [e], tail);
    }
  }

  lemma OtherItems(items: seq<Value>)
    requires items != [] && Printable(Seq(items))
    ensures Printable(items[0]) && Printable(Seq(items[1..]))
  {
  }

  lemma OtherEntries(entries: seq<Entry>)
    requires entries != [] && Printable(Map(entries))
    ensures Printable(Map(entries[1..])) && PrintableKey(entries[0].key) && Printable(entries[0].val)
  {
    hide PrintableKey;
  }

  lemma NewKey(acc: seq<Entry>, entries: seq<Entry>)
    requires entries != [] && DistinctKeys(acc + entries)
    ensures !HasKey(acc, entries[0].key)
  {
    assert (acc + entries)[|acc|] == entries[0];
    assert forall i :: 0 <= i < |acc| ==> (acc + entries)[i] == acc[i];
  }

  lemma {:induction false} EntryReads(
      lines: seq<string>, pos: nat, e: Entry, d: nat, more: seq<string>) returns (next: nat)
    requires pos <= |lines| && PrintableKey(e.key) && Printable(e.val) && EndsBlock(more, d + 2)
    requires Rest(lines, pos) == [Indented(d, EntryHead(e))] + (Below(e.val, d) + more)
    ensures var p := SkipNoise(lines, pos);
            && p < |lines| && Lead(lines[p]) == d && !StartsWith(Strip(lines[p]), "- ")
            && MatchKey(LStrip(lines[p])).Some? && MatchKey(LStrip(lines[p])).value.key == e.key
            && EntryValue(lines, p + 1, d, WithoutComment(MatchKey(LStrip(lines[p])).value.rest)) == Parsed(e.val, next)
            && p < next <= |lines| && Rest(lines, next) == more
    decreases e.val, 5
  {
    hide BlockText, AtomText, WithoutComment, OpensKey, MatchKey, EntryHead, Lead, Strip, LStrip, NestedValue,
         EntryValue;
    var p := SkipNoise(lines, pos);
    EntryHeadReads(e);
    NextLine(lines, pos, d, EntryHead(e), Below(e.val, d) + more);
    if IsAtom(e.val) {
      EntryValueAtom(lines, p + 1, d, e.val);
      next := p + 1;
      assert [] + more == more;
    } else {
      EntryValueNested(lines, p + 1, d);
      NestedReads(lines, p + 1, e.val, d, more);
      next := NestedValue(lines, p + 1, d).pos;
    }
  }

  // ---------------------------------------------------------------- documents

  lemma AtomDocument(lines: seq<string>, v: Value)
    requires IsAtom(v) && Printable(v) && Significant(lines) == [AtomText(v)]
    ensures Document(lines) == v <==> StandsAlone(v)
  {
    hide ScalarOf, WithoutComment, OpensKey, OpensDashMapping, AtomText, Lead, Strip, LStrip, FlowSeqOf, FlowMapOf,
         Printable, SequenceAt, MappingAt;
    var a := AtomText(v);
    AtomReads(v);
    EmptyFlow();
    assert Indented(0, a) == a;
    NextLine(lines, 0, 0, a, []);
    var p := SkipNoise(lines, 0);
    assert PlainLines(lines, p + 1, 0, [a]) == Parsed([a], p + 1);
    assert [] + [a] == [a];
    assert PlainLines(lines, p, 0, []) == PlainLines(lines, p + 1, 0, [a]);
    EmptyStandsAlone(v);
  }

  lemma EmptyStandsAlone(v: Value)
    requires IsAtom(v)
    ensures v.Map? ==> StandsAlone(v)
  {
    hide QuoteAt;
    if v.Map? {
      NoColonNoKey("{}");
    }
  }

  /** The round trip, with noise anywhere: any lines whose significant ones are the printed ones parse
      to the printed tree, unless that is a single string that looks like a key. */
  lemma DocumentReads(lines: seq<string>, v: Value)
    requires Printable(v) && Significant(lines) == PrintLines(v)
    ensures Document(lines) == v <==> StandsAlone(v)
  {
    if IsAtom(v) {
      AtomDocument(lines, v);
    } else {
      assert BlockText(v, 0) + [] == BlockText(v, 0);
      ValueReads(lines, 0, v, 0, []);
    }
  }

  lemma {:induction false} InsertNoise(before: seq<string>, noise: string, after: seq<string>)
    requires IsNoise(noise)
    ensures Significant(before + [noise] + after) == Significant(before + after)
  {
    SignificantAppend(before + [noise], after);
    SignificantAppend(before, [noise]);
    SignificantAppend(before, after);
    assert Rest([noise], 1) == [];
  }

  lemma {:induction false} RestDropsPrefix(a: seq<string>, b: seq<string>, pos: nat)
    requires pos <= |b|
    ensures Rest(a + b, |a| + pos) == Rest(b, pos)
    decreases |b| - pos
  {
    if pos < |b| {
      RestDropsPrefix(a, b, pos + 1);
    }
  }

  lemma {:induction false} RestAppend(a: seq<string>, b: seq<string>, pos: nat)
    requires pos <= |a|
    ensures Rest(a + b, pos) == Rest(a, pos) + Significant(b)
    decreases |a| - pos
  {
    if pos == |a| {
      RestDropsPrefix(a, b, 0);
    } else {
      RestAppend(a, b, pos + 1);
    }
  }

  lemma SignificantAppend(a: seq<string>, b: seq<string>)
    ensures Significant(a + b) == Significant(a) + Significant(b)
  {
    RestAppend(a, b, 0);
  }

  predicate PlainLine(line: string) {
    OneLine(line) && !IsNoise(line)
  }

  predicate PlainLineList(lines: seq<string>) {
    forall i :: 0 <= i < |lines| ==> PlainLine(lines[i])
  }

  lemma IndentedIsPlain(d: nat, body: string)
    requires Trimmed(body) && body[0] != '#' && OneLine(body)
    ensures PlainLine(Indented(d, body))
  {
    StripIndented(d, body);
    assert body[..1] == [body[0]];
  }

  lemma KeyTextIsOneLine(k: string)
    requires PrintableKey(k)
    ensures OneLine(KeyText(k))
  {
    if IsWordKey(k) {
      assert forall i :: 0 <= i < |k| ==> IsWord(k[i]) && !IsLineBoundary(k[i]);
    }
  }

  lemma EntryHeadIsOneLine(e: Entry)
    requires PrintableKey(e.key) && Printable(e.val)
    ensures OneLine(EntryHead(e))
  {
    hide KeyText, AtomText, ScalarOf, WithoutComment, OpensKey, OpensDashMapping;
    KeyTextIsOneLine(e.key);
    if IsAtom(e.val) {
      AtomReads(e.val);
    }
  }

  lemma ItemHeadIsPlain(v: Value)
    requires Printable(v)
    ensures OneLine(ItemHead(v))
  {
    hide AtomText, ScalarOf, WithoutComment, OpensKey, OpensDashMapping;
    if IsAtom(v) {
      AtomReads(v);
    }
  }

  lemma {:induction false} BlockIsPlain(v: Value, d: nat)
    requires Printable(v) && !IsAtom(v)
    ensures PlainLineList(BlockText(v, d))
    decreases v, 1
  {
    if v.Seq? {
      ItemsArePlain(v.items, d);
    } else {
      EntriesArePlain(v.entries, d);
    }
  }

  lemma NoPlainLines()
    ensures PlainLineList([])
  {
  }

  lemma PlainAppend(head: string, a: seq<string>, b: seq<string>)
    requires PlainLine(head) && PlainLineList(a) && PlainLineList(b)
    ensures PlainLineList([head] + (a + (b + [])))
  {
    hide PlainLine;
  }

  lemma {:induction false} ItemsArePlain(items: seq<Value>, d: nat)
    requires Printable(Seq(items))
    ensures PlainLineList(ItemLines(items, d))
    decreases items, 0
  {
    hide PlainLine, ItemHead, BlockText, Indented, ItemLines, Trimmed, PlainLineList;
    NoItems(d);
    assert PlainLineList([]) by { NoPlainLines(); }
    if items != [] {
      var v := items[0];
      assert Printable(v) && Printable(Seq(items[1..]));
      ItemHeadReads(v);
      ItemHeadIsPlain(v);
      IndentedIsPlain(d, ItemHead(v));
      if !IsAtom(v) {
        BlockIsPlain(v, d + 2);
      }
      ItemsArePlain(items[1..], d);
      ItemLinesSplit(items, d, []);
      assert ItemLines(items, d) + [] == ItemLines(items, d);
      PlainAppend(Indented(d, ItemHead(v)), Below(v, d), ItemLines(items[1..], d));
    }
  }

  lemma {:induction false} EntriesArePlain(entries: seq<Entry>, d: nat)
    requires Printable(Map(entries))
    ensures PlainLineList(EntryLines(entries, d))
    decreases entries, 0
  {
    hide PlainLine, EntryHead, BlockText, Indented, EntryLines, Trimmed, PlainLineList, PrintableKey, OpensKey,
         MatchKey;
    NoItems(d);
    assert PlainLineList([]) by { NoPlainLines(); }
    if entries != [] {
      var e := entries[0];
      assert Printable(Map(entries[1..]));
      EntryHeadReads(e);
      EntryHeadIsOneLine(e);
      IndentedIsPlain(d, EntryHead(e));
      if !IsAtom(e.val) {
        BlockIsPlain(e.val, d + 2);
      }
      EntriesArePlain(entries[1..], d);
      EntryLinesSplit(entries, d, []);
      assert EntryLines(entries, d) + [] == EntryLines(entries, d);
      PlainAppend(Indented(d, EntryHead(e)), Below(e.val, d), EntryLines(entries[1..], d));
    }
  }

  lemma PrintedIsPlain(v: Value)
    requires Printable(v)
    ensures PlainLineList(PrintLines(v))
  {
    if IsAtom(v) {
      AtomReads(v);
      IndentedIsPlain(0, AtomText(v));
      assert Indented(0, AtomText(v)) == AtomText(v);
    } else {
      BlockIsPlain(v, 0);
    }
  }

  lemma {:induction false} RestOfPlain(lines: seq<string>, pos: nat)
    requires pos <= |lines| && PlainLineList(lines)
    ensures Rest(lines, pos) == lines[pos..]
    decreases |lines| - pos
  {
    if pos < |lines| {
      assert PlainLine(lines[pos]);
      RestOfPlain(lines, pos + 1);
    }
  }

  lemma {:induction false} SplitOneLine(line: string, rest: string, current: string)
    requires OneLine(line)
    ensures SplitLinesFrom(line + "\n" + rest, current) == [current + line] + SplitLinesFrom(rest, "")
  {
    var text := line + "\n" + rest;
    assert !StartsWith(text, "\r\n") by {
      assert text[0] != '\r' && "\r\n"[0] == '\r';
    }
    if line == "" {
      assert text[1..] == rest && current + line == current;
    } else {
      assert text[1..] == line[1..] + "\n" + rest;
      SplitOneLine(line[1..], rest, current + [line[0]]);
      assert current + [line[0]] + line[1..] == current + line;
    }
  }

  lemma {:induction false} SplitUnlines(lines: seq<string>)
    requires forall i :: 0 <= i < |lines| ==> OneLine(lines[i])
    ensures SplitLines(Unlines(lines)) == lines
  {
    if lines != [] {
      SplitOneLine(lines[0], Unlines(lines[1..]), "");
      SplitUnlines(lines[1..]);
      assert "" + lines[0] == lines[0];
    }
  }

  /** The round trip on text: the lines may carry blank and comment lines anywhere. */
  lemma TextReads(lines: seq<string>, v: Value)
    requires Printable(v) && Significant(lines) == PrintLines(v)
    requires forall i :: 0 <= i < |lines| ==> OneLine(lines[i])
    ensures Document(SplitLines(Unlines(lines))) == v <==> StandsAlone(v)
  {
    SplitUnlines(lines);
    DocumentReads(lines, v);
  }

  /** Printing and parsing back, without noise. */
  lemma PrintedTextReads(v: Value)
    requires Printable(v)
    ensures Document(SplitLines(Unlines(PrintLines(v)))) == v <==> StandsAlone(v)
  {
    PrintedIsPlain(v);
    RestOfPlain(PrintLines(v), 0);
    assert forall i :: 0 <= i < |PrintLines(v)| ==> PlainLine(PrintLines(v)[i]);
    TextReads(PrintLines(v), v);
  }
}
