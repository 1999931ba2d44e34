/** Whatever the lines are, the parser returns a Python value: every mapping in it is a dict. So what
    is proved of resolving and listing such values holds of every parsed spec. */
module YamlDocs {
  import opened Text
  import opened YamlText
  import opened YamlSpec
  import opened Refs
  import opened Resolution
  import opened Tables
  import Rows

  lemma AtomIsDoc(v: Value)
    requires !v.Seq? && !v.Map?
    ensures IsDoc(v)
  {
  }

  lemma ScalarIsDoc(text: string)
    ensures IsDoc(ScalarOf(text))
  {
    hide IsDoc, WithoutComment, IsFloatText, IntOf;
    AtomIsDoc(ScalarOf(text));
  }

  lemma SeqIsDoc(items: seq<Value>)
    ensures IsDoc(Seq(items)) <==> AllDocs(items)
  {
  }

  lemma FlowSeqIsDoc(raw: string)
    ensures IsDoc(FlowSeqOf(raw))
  {
    hide IsDoc, ScalarOf, FlowItems, Strip, Inner;
    var items := FlowSeqOf(raw).items;
    forall i | 0 <= i < |items| ensures IsDoc(items[i]) {
      if StartsWith(Strip(raw), "[") && EndsWith(Strip(raw), "]") {
        ScalarIsDoc(Strip(FlowItems(Strip(Inner(Strip(raw))))[i]));
      } else {
        ScalarIsDoc(Strip(raw));
      }
    }
    SeqIsDoc(items);
  }

  lemma {:induction false} FlowPairsAreDocs(pairs: seq<string>, acc: seq<Entry>)
    requires IsDoc(Map(acc))
    ensures IsDoc(Map(FlowPairs(pairs, acc)))
    decreases |pairs|
  {
    hide IsDoc, ScalarOf, Strip, DropQuotes, DictSet;
    if pairs != [] {
      match Find(pairs[0], ':')
      case None => FlowPairsAreDocs(pairs[1..], acc);
      case Some(i) =>
        var key, val := DropQuotes(Strip(pairs[0][..i])), ScalarOf(Strip(pairs[0][i + 1..]));
        ScalarIsDoc(Strip(pairs[0][i + 1..]));
        SetIsDoc(acc, key, val);
        FlowPairsAreDocs(pairs[1..], DictSet(acc, key, val));
    }
  }

  lemma FlowMapIsDoc(raw: string)
    ensures IsDoc(FlowMapOf(raw))
  {
    hide IsDoc, FlowItems, FlowPairs, Strip, Inner;
    EmptyIsDoc();
    FlowPairsAreDocs(FlowItems(Strip(Inner(Strip(raw)))), []);
  }

  lemma {:induction false} ValueIsDoc(lines: seq<string>, pos: nat)
    requires pos <= |lines|
    ensures IsDoc(ValueAt(lines, pos).value)
    decreases |lines| - pos, 3
  {
    hide IsDoc, AllDocs, Strip, Lead, StartsWith, OpensKey, FlowMapOf, FlowSeqOf, PlainLines, ScalarOf, SequenceAt,
         MappingAt;
    EmptyIsDoc();
    NoItemsAreDocs();
    AtomIsDoc(Null);
    var p := SkipNoise(lines, pos);
    if p < |lines| {
      var indent := Lead(lines[p]);
      FlowMapIsDoc(Strip(lines[p]));
      FlowSeqIsDoc(Strip(lines[p]));
      ScalarIsDoc(Join(PlainLines(lines, p, indent, []).value, " "));
      SequenceIsDoc(lines, p, indent, []);
      SeqIsDoc(SequenceAt(lines, p, indent, []).value);
      MappingIsDoc(lines, p, indent, []);
    }
  }

  lemma NoItemsAreDocs()
    ensures AllDocs([])
  {
  }

  lemma {:induction false} MappingIsDoc(lines: seq<string>, pos: nat, base: nat, acc: seq<Entry>)
    requires pos <= |lines| && IsDoc(Map(acc))
    ensures IsDoc(Map(MappingAt(lines, pos, base, acc).value))
    decreases |lines| - pos, 0
  {
    hide IsDoc, Strip, LStrip, Lead, StartsWith, MatchKey, WithoutComment, EntryValue, DictSet;
    var p := SkipNoise(lines, pos);
    if p < |lines| && Lead(lines[p]) == base && !StartsWith(Strip(lines[p]), "- ") {
      match MatchKey(LStrip(lines[p]))
      case None => MappingIsDoc(lines, p + 1, base, acc);
      case Some(k) =>
        var v := EntryValue(lines, p + 1, base, WithoutComment(k.rest));
        EntryValueIsDoc(lines, p + 1, base, WithoutComment(k.rest));
        SetIsDoc(acc, k.key, v.value);
        MappingIsDoc(lines, v.pos, base, DictSet(acc, k.key, v.value));
    }
  }

  lemma {:induction false} EntryValueIsDoc(lines: seq<string>, pos: nat, base: nat, rest: string)
    requires pos <= |lines|
    ensures IsDoc(EntryValue(lines, pos, base, rest).value)
    decreases |lines| - pos, 5
  {
    hide IsDoc, StartsWith, FlowMapOf, FlowSeqOf, ScalarOf, NestedValue, BlockScalarAt, IsBlockIndicator;
    AtomIsDoc(Str(BlockScalarAt(lines, pos, rest, base).value));
    NestedIsDoc(lines, pos, base);
    FlowMapIsDoc(rest);
    FlowSeqIsDoc(rest);
    ScalarIsDoc(rest);
  }

  lemma {:induction false} NestedIsDoc(lines: seq<string>, pos: nat, base: int)
    requires pos <= |lines|
    ensures IsDoc(NestedValue(lines, pos, base).value)
    decreases |lines| - pos, 4
  {
    hide IsDoc, ValueAt, Lead;
    AtomIsDoc(Null);
    ValueIsDoc(lines, SkipNoise(lines, pos));
  }

  lemma AllDocsAppend(items: seq<Value>, v: Value)
    requires AllDocs(items) && IsDoc(v)
    ensures AllDocs(items + [v])
  {
    hide IsDoc;
  }

  lemma {:induction false} SequenceIsDoc(lines: seq<string>, pos: nat, base: nat, acc: seq<Value>)
    requires pos <= |lines| && AllDocs(acc)
    ensures AllDocs(SequenceAt(lines, pos, base, acc).value)
    decreases |lines| - pos, 0
  {
    hide IsDoc, AllDocs, Strip, Lead, StartsWith, ItemAt;
    var p := SkipNoise(lines, pos);
    if p < |lines| && Lead(lines[p]) == base && StartsWith(Strip(lines[p]), "-") {
      var text := Strip(Strip(lines[p])[1..]);
      var item := ItemAt(lines, p + 1, base, text);
      ItemIsDoc(lines, p + 1, base, text);
      AllDocsAppend(acc, item.value);
      SequenceIsDoc(lines, item.pos, base, acc + [item.value]);
    }
  }

  lemma {:induction false} ItemIsDoc(lines: seq<string>, pos: nat, base: nat, afterDash: string)
    requires pos <= |lines|
    ensures IsDoc(ItemAt(lines, pos, base, afterDash).value)
    decreases |lines| - pos, 6
  {
    hide IsDoc, StartsWith, FlowMapOf, FlowSeqOf, ScalarOf, NestedValue, DashMapping, OpensDashMapping;
    NestedIsDoc(lines, pos, base);
    DashIsDoc(lines, pos, base + 2, afterDash);
    FlowMapIsDoc(afterDash);
    FlowSeqIsDoc(afterDash);
    ScalarIsDoc(afterDash);
  }

  lemma {:induction false} DashIsDoc(lines: seq<string>, pos: nat, cont: nat, first: string)
    requires pos <= |lines|
    ensures IsDoc(Map(DashMapping(lines, pos, cont, first).value))
    decreases |lines| - pos, 5
  {
    hide IsDoc, MatchKey, WithoutComment, ScalarOf, NestedValue, Continuation, DictSet;
    EmptyIsDoc();
    match MatchKey(first)
    case None => ContinuationIsDoc(lines, pos, cont, []);
    case Some(k) =>
      var rest := WithoutComment(k.rest);
      var v := if rest != "" then Parsed(ScalarOf(rest), pos) else NestedValue(lines, pos, cont - 1);
      ScalarIsDoc(rest);
      NestedIsDoc(lines, pos, cont - 1);
      OneEntryIsDoc(Entry(k.key, v.value));
      ContinuationIsDoc(lines, v.pos, cont, [Entry(k.key, v.value)]);
  }

  lemma OneEntryIsDoc(e: Entry)
    requires IsDoc(e.val)
    ensures IsDoc(Map([e]))
  {
  }

  lemma {:induction false} ContinuationIsDoc(lines: seq<string>, pos: nat, cont: nat, acc: seq<Entry>)
    requires pos <= |lines| && IsDoc(Map(acc))
    ensures IsDoc(Map(Continuation(lines, pos, cont, acc).value))
    decreases |lines| - pos, 0
  {
    hide IsDoc, LStrip, Lead, MatchKey, WithoutComment, EntryValue, DictSet;
    var p := SkipNoise(lines, pos);
    if p < |lines| && Lead(lines[p]) == cont {
      match MatchKey(LStrip(lines[p]))
      case None =>
      case Some(k) =>
        var v := EntryValue(lines, p + 1, cont, WithoutComment(k.rest));
        EntryValueIsDoc(lines, p + 1, cont, WithoutComment(k.rest));
        SetIsDoc(acc, k.key, v.value);
        ContinuationIsDoc(lines, v.pos, cont, DictSet(acc, k.key, v.value));
    }
  }

  /** Every text parses to a Python value, and so does whatever a reference leads to. */
  lemma DocumentIsDoc(lines: seq<string>, ref: string)
    ensures IsDoc(Document(lines)) && IsDoc(ResolveRef(Document(lines), ref))
  {
    hide IsDoc;
    ValueIsDoc(lines, 0);
    ResolveRefIsDoc(Document(lines), ref);
  }

  /** From the lines of a spec to the schema behind a reference: the resolver leaves nothing at the top
      exactly when unbounded resolution gives that result within the depth bound. */
  lemma ReferencedSchema(lines: seq<string>, ref: string, depth: nat)
    requires ResolveSchema(Document(lines), ResolveRef(Document(lines), ref), depth).Some?
    ensures var spec := Document(lines);
            var schema := ResolveRef(spec, ref);
            var r := ResolveSchema(spec, schema, depth);
            && IsDoc(r.value)
            && (IsPlain(r.value) <==> exists h: nat :: (h == 0 || h + depth <= 11) && Full(spec, schema, h) == Some(r))
  {
    hide IsDoc, IsPlain, Full, ResolveSchema;
    DocumentIsDoc(lines, ref);
    ResolveSchemaMeaning(Document(lines), ResolveRef(Document(lines), ref), depth);
  }

  /** From the lines of a spec to the property table of the schema behind a reference: there is one
      exactly when every property within the bound is listable; and then it has one row for each path
      to such a property and for no other, in the order of the declarations. */
  lemma ReferencedTable(
      lines: seq<string>, ref: string, depth: nat, required: seq<string>, level: nat, maxDepth: nat, prefix: string)
    requires ResolveSchema(Document(lines), ResolveRef(Document(lines), ref), depth).Some?
    requires var spec := Document(lines);
             var props := Get(ResolveSchema(spec, ResolveRef(spec, ref), depth).value, "properties");
             props.Some? && props.value.Map?
    ensures var spec := Document(lines);
            var props := Get(ResolveSchema(spec, ResolveRef(spec, ref), depth).value, "properties").value.entries;
            var table := Rows.CollectRows(props, required, spec, level, maxDepth, prefix);
            && (table.Some? <==> AllListable(props, spec, level, maxDepth))
            && (table.Some? ==> exists paths: seq<Rows.Path> ::
                  && |table.value| == |paths| && Rows.Distinct(paths) && InOrder(props, spec, paths)
                  && (forall p :: p in paths <==> Walks(props, spec, p) && |p| <= 1 + Left(level, maxDepth))
                  && (forall i :: 0 <= i < |paths| ==>
                        table.value[i] == Rows.Row(prefix + Join(paths[i], "."),
                                                   IsRequired(props, required, spec, paths[i]))))
  {
    hide IsDoc, ResolveSchema, Rows.CollectRows, AllListable, InOrder, Walks, IsRequired;
    var spec := Document(lines);
    DocumentIsDoc(lines, ref);
    ResolveIsDoc(spec, ResolveRef(spec, ref), depth);
    GetIsDoc(ResolveSchema(spec, ResolveRef(spec, ref), depth).value, "properties");
    var props := Get(ResolveSchema(spec, ResolveRef(spec, ref), depth).value, "properties").value.entries;
    TableExists(props, required, spec, level, maxDepth, prefix);
    if Rows.CollectRows(props, required, spec, level, maxDepth, prefix).Some? {
      TableMeaning(props, required, spec, level, maxDepth, prefix);
    }
  }
}
