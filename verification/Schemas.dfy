/** What `resolve_schema` makes of each kind of schema, in terms of its keys, of paths in the spec and
    of the bound itself; when merging succeeds, and in which order it leaves the keys. */
module Schemas {
  import opened Text
  import opened YamlText
  import opened Refs
  import opened Resolution

  predicate IsPath(path: seq<string>) {
    path != [] && forall i :: 0 <= i < |path| ==> '/' !in path[i]
  }

  /** A dict with neither `$ref` nor `allOf`. */
  predicate IsSimple(schema: Value) {
    schema.Map? && Get(schema, "$ref").None? && Get(schema, "allOf").None?
  }

  /** A dict whose `$ref` names the path, whatever else it has. */
  predicate RefersTo(schema: Value, path: seq<string>) {
    schema.Map? && Get(schema, "$ref") == Some(Str("#/" + Join(path, "/")))
  }

  /** A dict without `$ref` whose `allOf` is this list. */
  predicate IsAllOf(schema: Value, items: seq<Value>) {
    schema.Map? && Get(schema, "$ref").None? && Get(schema, "allOf") == Some(Seq(items))
  }

  // ---------------------------------------------------------------- with the bound of ten

  lemma StepMeaning(spec: Value, schema: Value, path: seq<string>, items: seq<Value>)
    ensures IsPath(path) && RefersTo(schema, path) ==> StepOf(spec, schema) == Follow(MapOr(At(spec, path), Map([])))
    ensures IsAllOf(schema, items) ==> StepOf(spec, schema) == Combine(items)
    ensures IsSimple(schema) ==> StepOf(spec, schema) == Done(schema)
  {
    hide Join, ResolveRef, Lookup, At;
    if IsPath(path) && RefersTo(schema, path) {
      ReferenceMeaning(spec, path);
    }
  }

  /** A schema without `$ref` and `allOf` is its own resolution, and null that of nothing. */
  lemma SimpleResolves(spec: Value, schema: Value, depth: nat)
    ensures IsSimple(schema) ==> ResolveSchema(spec, schema, depth) == Some(schema)
    ensures ResolveSchema(spec, Null, depth) == Some(Map([]))
  {
    hide StepOf, IsSimple;
    if IsSimple(schema) {
      StepMeaning(spec, schema, [], []);
      assert !schema.Null? by { SimpleIsMap(schema); }
    }
  }

  lemma SimpleIsMap(schema: Value)
    requires IsSimple(schema)
    ensures schema.Map?
  {
  }

  /** Up to depth 10 a `$ref`, with an `allOf` beside it or not, is resolved to what its path leads to,
      one level deeper; a path that leads to no mapping counts as an empty one. */
  lemma ReferenceResolves(spec: Value, schema: Value, path: seq<string>, depth: nat)
    requires depth <= 10 && IsPath(path) && RefersTo(schema, path)
    ensures ResolveSchema(spec, schema, depth) == ResolveSchema(spec, MapOr(At(spec, path), Map([])), depth + 1)
    ensures At(spec, path).Some? && IsSimple(At(spec, path).value) ==>
              ResolveSchema(spec, schema, depth) == At(spec, path)
    ensures At(spec, path).None? ==> ResolveSchema(spec, schema, depth) == Some(Map([]))
  {
    hide StepOf, Join, At;
    StepMeaning(spec, schema, path, []);
    var target := MapOr(At(spec, path), Map([]));
    EmptyIsSimple();
    SimpleResolves(spec, target, depth + 1);
  }

  lemma EmptyIsSimple()
    ensures IsSimple(Map([]))
  {
  }

  /** A reference that does not start with `#/` resolves to an empty mapping, and one that is no
      string raises. */
  lemma OtherReferences(spec: Value, schema: Value, ref: Value, depth: nat)
    requires depth <= 10 && schema.Map? && Get(schema, "$ref") == Some(ref)
    ensures !ref.Str? ==> ResolveSchema(spec, schema, depth).None?
    ensures ref.Str? && !StartsWith(ref.s, "#/") ==> ResolveSchema(spec, schema, depth) == Some(Map([]))
  {
    hide Lookup, WalkRef;
    EmptyIsSimple();
    SimpleResolves(spec, Map([]), depth + 1);
  }

  /** Up to depth 10 an `allOf` without a `$ref` is the merge of the resolutions of exactly its items, in
      order, one level deeper; it raises when one of them does. */
  lemma AllOfResolves(spec: Value, schema: Value, items: seq<Value>, depth: nat)
    requires depth <= 10 && IsAllOf(schema, items)
    ensures (exists i :: 0 <= i < |items| && ResolveSchema(spec, items[i], depth + 1).None?) ==>
              ResolveSchema(spec, schema, depth).None?
    ensures forall subs: seq<Value> ::
              |subs| == |items|
              && (forall i :: 0 <= i < |items| ==> ResolveSchema(spec, items[i], depth + 1) == Some(subs[i])) ==>
                ResolveSchema(spec, schema, depth) == Merge(subs)
  {
    hide StepOf, Merge, ResolveItems;
    StepMeaning(spec, schema, [], items);
    EachResolves(spec, items, depth + 1);
    var all := ResolveItems(spec, items, depth + 1);
    forall subs: seq<Value>
      | |subs| == |items|
        && (forall i :: 0 <= i < |items| ==> ResolveSchema(spec, items[i], depth + 1) == Some(subs[i]))
      ensures all == Some(subs)
    {
      assert all.Some? && all.value == subs;
    }
  }

  lemma {:induction false} EachResolves(spec: Value, items: seq<Value>, depth: nat)
    ensures var all := ResolveItems(spec, items, depth);
            && (all.None? <==> exists i :: 0 <= i < |items| && ResolveSchema(spec, items[i], depth).None?)
            && (all.Some? ==>
                  && |all.value| == |items|
                  && forall i :: 0 <= i < |items| ==> ResolveSchema(spec, items[i], depth) == Some(all.value[i]))
    decreases |items|
  {
    hide ResolveSchema;
    if items != [] {
      EachResolves(spec, items[1..], depth);
      var rest := items[1..];
      assert forall i :: 0 <= i < |rest| ==> rest[i] == items[i + 1];
      if ResolveSchema(spec, items[0], depth).Some? && ResolveItems(spec, rest, depth).None? {
        var i :| 0 <= i < |rest| && ResolveSchema(spec, rest[i], depth).None?;
        assert ResolveSchema(spec, items[i + 1], depth).None?;
      }
    }
  }

  /** Beyond depth 10 a schema comes back as it is. */
  lemma DeepSchemas(spec: Value, schema: Value, depth: nat)
    requires depth > 10 && !schema.Null?
    ensures ResolveSchema(spec, schema, depth) == Some(schema)
  {
  }

  /** Values that are no dicts: a number or a boolean raises, and so does a list or a string that has
      `$ref` or `allOf` in it; any other list or string comes back as it is. */
  lemma NoDicts(spec: Value, v: Value, depth: nat)
    requires depth <= 10 && !v.Map? && !v.Null?
    ensures v.Bool? || v.Int? || v.Float? ==> ResolveSchema(spec, v, depth).None?
    ensures v.Seq? ==> ResolveSchema(spec, v, depth)
                       == if Str("$ref") in v.items || Str("allOf") in v.items then None else Some(v)
    ensures v.Str? ==> ResolveSchema(spec, v, depth)
                       == if Occurs("$ref", v.s) || Occurs("allOf", v.s) then None else Some(v)
  {
    hide Occurs;
  }

  // ---------------------------------------------------------------- without a bound

  /** Unbounded resolution of a simple schema, and of a reference. */
  lemma ReferenceResolvesTo(spec: Value, schema: Value, path: seq<string>, r: Option<Value>)
    ensures IsSimple(schema) ==> (ResolvesTo(spec, schema, r) <==> r == Some(schema))
    ensures IsPath(path) && RefersTo(schema, path) ==>
              (ResolvesTo(spec, schema, r) <==> ResolvesTo(spec, MapOr(At(spec, path), Map([])), r))
  {
    hide StepOf, IsSimple, IsPath, RefersTo, At;
    StepMeaning(spec, schema, path, []);
    if IsSimple(schema) {
      assert Full(spec, schema, 0) == Some(Some(schema));
    } else if IsPath(path) && RefersTo(schema, path) {
      var target := MapOr(At(spec, path), Map([]));
      if h: nat :| Full(spec, schema, h) == Some(r) {
        assert Full(spec, target, h - 1) == Some(r);
      }
      if h: nat :| Full(spec, target, h) == Some(r) {
        assert Full(spec, schema, h + 1) == Some(r);
      }
    }
  }

  predicate EachFull(spec: Value, items: seq<Value>, subs: seq<Value>, h: nat) {
    |subs| == |items| && forall i :: 0 <= i < |items| ==> Full(spec, items[i], h) == Some(Some(subs[i]))
  }

  ghost predicate EachResolvesTo(spec: Value, items: seq<Value>, subs: seq<Value>) {
    |subs| == |items| && forall i :: 0 <= i < |items| ==> ResolvesTo(spec, items[i], Some(subs[i]))
  }

  /** Unbounded resolution of an `allOf`: the merge of the unbounded resolutions of its items. */
  lemma AllOfResolvesTo(spec: Value, schema: Value, items: seq<Value>)
    requires IsAllOf(schema, items)
    ensures forall subs :: EachResolvesTo(spec, items, subs) ==> ResolvesTo(spec, schema, Merge(subs))
    ensures forall v :: ResolvesTo(spec, schema, Some(v)) ==>
              exists subs :: EachResolvesTo(spec, items, subs) && Merge(subs) == Some(v)
  {
    hide StepOf, Merge, FullItems;
    StepMeaning(spec, schema, [], items);
    forall subs | EachResolvesTo(spec, items, subs) ensures ResolvesTo(spec, schema, Merge(subs)) {
      var h := CommonHeight(spec, items, subs);
      EachIsFull(spec, items, subs, h);
      assert Full(spec, schema, h + 1) == Some(Merge(subs));
    }
    forall v | ResolvesTo(spec, schema, Some(v))
      ensures exists subs :: EachResolvesTo(spec, items, subs) && Merge(subs) == Some(v)
    {
      var h: nat :| Full(spec, schema, h) == Some(Some(v));
      var subs := FullItems(spec, items, h - 1).value.value;
      FullIsEach(spec, items, h - 1);
      forall i | 0 <= i < |items| ensures ResolvesTo(spec, items[i], Some(subs[i])) {
        assert Full(spec, items[i], h - 1) == Some(Some(subs[i]));
      }
      assert EachResolvesTo(spec, items, subs);
    }
  }

  lemma {:induction false} FullIsEach(spec: Value, items: seq<Value>, h: nat)
    requires FullItems(spec, items, h).Some? && FullItems(spec, items, h).value.Some?
    ensures EachFull(spec, items, FullItems(spec, items, h).value.value, h)
    decreases |items|
  {
    hide Full;
    if items != [] {
      FullIsEach(spec, items[1..], h);
    }
  }

  lemma {:induction false} EachIsFull(spec: Value, items: seq<Value>, subs: seq<Value>, h: nat)
    requires EachFull(spec, items, subs, h)
    ensures FullItems(spec, items, h) == Some(Some(subs))
    decreases |items|
  {
    hide Full;
    if items != [] {
      assert Full(spec, items[0], h) == Some(Some(subs[0]));
      EachIsFull(spec, items[1..], subs[1..], h);
      assert [subs[0]] + subs[1..] == subs;
    } else {
      assert subs == [];
    }
  }

  lemma {:induction false} CommonHeight(spec: Value, items: seq<Value>, subs: seq<Value>) returns (h: nat)
    requires EachResolvesTo(spec, items, subs)
    ensures EachFull(spec, items, subs, h)
    decreases |items|
  {
    hide Full;
    if items == [] {
      h := 0;
    } else {
      var rest := CommonHeight(spec, items[1..], subs[1..]);
      assert ResolvesTo(spec, items[0], Some(subs[0]));
      var first: nat :| Full(spec, items[0], first) == Some(Some(subs[0]));
      h := first + rest;
      FullGrows(spec, items[0], first, h);
      forall i | 0 <= i < |items| ensures Full(spec, items[i], h) == Some(Some(subs[i])) {
        if i > 0 {
          assert items[i] == items[1..][i - 1] && subs[i] == subs[1..][i - 1];
          FullGrows(spec, items[i], rest, h);
        }
      }
    }
  }

  /** When resolving one schema goes on to another. */
  lemma LeadsToMeaning(spec: Value, a: Value, b: Value, path: seq<string>, items: seq<Value>)
    ensures IsPath(path) && RefersTo(a, path) ==> (LeadsTo(spec, a, b) <==> b == MapOr(At(spec, path), Map([])))
    ensures IsAllOf(a, items) ==> (LeadsTo(spec, a, b) <==> b in items)
    ensures IsSimple(a) ==> !LeadsTo(spec, a, b)
  {
    hide StepOf, IsSimple, IsPath, RefersTo, At, IsAllOf;
    StepMeaning(spec, a, path, items);
  }

  // ---------------------------------------------------------------- merging

  /** What merging takes: dicts whose `properties` is a dict and whose `required` is a list of strings,
      where they have these keys. */
  predicate CanMerge(sub: Value) {
    && sub.Map?
    && (forall i :: 0 <= i < |sub.entries| ==> CanMergeEntry(sub.entries[i]))
  }

  predicate CanMergeEntry(e: Entry) {
    && (e.key == "properties" ==> e.val.Map?)
    && (e.key == "required" ==> e.val.Seq? && forall k :: 0 <= k < |e.val.items| ==> e.val.items[k].Str?)
  }

  lemma {:induction false} StringsMeaning(items: seq<Value>)
    ensures Strings(items).Some? <==> forall k :: 0 <= k < |items| ==> items[k].Str?
  {
    if items != [] {
      StringsMeaning(items[1..]);
      assert forall k :: 0 < k < |items| ==> items[k] == items[1..][k - 1];
    }
  }

  lemma {:induction false} EntriesMerge(m: Merging, entries: seq<Entry>)
    ensures MergeEntries(m, entries).Some? <==> forall i :: 0 <= i < |entries| ==> CanMergeEntry(entries[i])
    decreases |entries|
  {
    hide PutAll, DictSet, Strings;
    if entries != [] {
      var e := entries[0];
      if e.val.Seq? {
        StringsMeaning(e.val.items);
      }
      assert MergeEntry(m, e).Some? <==> CanMergeEntry(e);
      if MergeEntry(m, e).Some? {
        EntriesMerge(MergeEntry(m, e).value, entries[1..]);
      }
      assert forall i :: 0 < i < |entries| ==> entries[i] == entries[1..][i - 1];
    }
  }

  lemma {:induction false} AllMerge(m: Merging, subs: seq<Value>)
    ensures MergeAll(m, subs).Some? <==> forall i :: 0 <= i < |subs| ==> CanMerge(subs[i])
    decreases |subs|
  {
    hide MergeEntries, CanMergeEntry;
    if subs != [] {
      if subs[0].Map? {
        EntriesMerge(m, subs[0].entries);
        if MergeEntries(m, subs[0].entries).Some? {
          AllMerge(MergeEntries(m, subs[0].entries).value, subs[1..]);
        }
      }
      assert forall i :: 0 < i < |subs| ==> subs[i] == subs[1..][i - 1];
    }
  }

  /** Merging raises exactly when something in it is of the wrong type. */
  lemma MergeSucceeds(subs: seq<Value>)
    ensures Merge(subs).Some? <==> forall i :: 0 <= i < |subs| ==> CanMerge(subs[i])
  {
    hide MergeAll, CanMerge, Finish;
    AllMerge(Merging([], [], []), subs);
  }

  // ---------------------------------------------------------------- the order of the keys

  function KeysOf(entries: seq<Entry>): (r: seq<string>)
    ensures |r| == |entries|
  {
    seq(|entries|, i requires 0 <= i < |entries| => entries[i].key)
  }

  lemma KeysOfNone()
    ensures KeysOf([]) == []
  {
  }

  lemma KeysOfCons(e: Entry, rest: seq<Entry>)
    ensures KeysOf([e] + rest) == [e.key] + KeysOf(rest)
  {
  }

  /** A key that is set keeps its place, and a new one comes last. */
  lemma {:induction false} KeysOfSet(entries: seq<Entry>, key: string, val: Value)
    ensures KeysOf(DictSet(entries, key, val))
         == if key in KeysOf(entries) then KeysOf(entries) else KeysOf(entries) + [key]
  {
    hide KeysOf;
    KeysOfNone();
    if entries == [] {
      KeysOfCons(Entry(key, val), []);
      assert [Entry(key, val)] + [] == [Entry(key, val)];
    } else {
      assert entries == [entries[0]] + entries[1..];
      KeysOfCons(entries[0], entries[1..]);
      if entries[0].key == key {
        KeysOfCons(Entry(key, val), entries[1..]);
      } else {
        KeysOfSet(entries[1..], key, val);
        KeysOfCons(entries[0], DictSet(entries[1..], key, val));
      }
    }
  }

  lemma {:induction false} DedupAppend(a: seq<string>, x: string)
    ensures Dedup(a + [x]) == if x in Dedup(a) then Dedup(a) else Dedup(a) + [x]
  {
    assert (a + [x])[..|a|] == a;
  }

  lemma {:induction false} KeysOfPutAll(entries: seq<Entry>, more: seq<Entry>, before: seq<string>)
    requires KeysOf(entries) == Dedup(before)
    ensures KeysOf(PutAll(entries, more)) == Dedup(before + KeysOf(more))
    decreases |more|
  {
    hide Dedup, DictSet;
    if more == [] {
      assert before + KeysOf(more) == before;
    } else {
      var key := more[0].key;
      KeysOfSet(entries, key, more[0].val);
      DedupAppend(before, key);
      KeysOfPutAll(DictSet(entries, key, more[0].val), more[1..], before + [key]);
      assert before + [key] + KeysOf(more[1..]) == before + KeysOf(more);
    }
  }

  /** The keys of the properties of a sub-schema. */
  function PropertyKeys(sub: Value): seq<string> {
    match Get(sub, "properties")
    case Some(Map(entries)) => KeysOf(entries)
    case _ => []
  }

  function AllPropertyKeys(subs: seq<Value>): seq<string> {
    if subs == [] then [] else PropertyKeys(subs[0]) + AllPropertyKeys(subs[1..])
  }

  lemma {:induction false} PropsOfEntries(m: Merging, entries: seq<Entry>, before: seq<string>)
    requires IsDoc(Map(entries)) && MergeEntries(m, entries).Some? && KeysOf(m.props) == Dedup(before)
    ensures KeysOf(MergeEntries(m, entries).value.props) == Dedup(before + PropertyKeys(Map(entries)))
    decreases |entries|
  {
    hide Dedup, PutAll, DictSet, Strings, IsDoc;
    if entries == [] {
      assert before + PropertyKeys(Map(entries)) == before;
    } else {
      var e, rest := entries[0], entries[1..];
      DocSplit(entries);
      var next := MergeEntry(m, e).value;
      if e.key == "properties" {
        KeysOfPutAll(m.props, e.val.entries, before);
        PropsOfEntries(next, rest, before + KeysOf(e.val.entries));
        assert PropertyKeys(Map(rest)) == [];
        assert before + KeysOf(e.val.entries) + [] == before + PropertyKeys(Map(entries));
      } else {
        PropsOfEntries(next, rest, before);
        assert PropertyKeys(Map(rest)) == PropertyKeys(Map(entries));
      }
    }
  }

  lemma {:induction false} PropsOfAll(m: Merging, subs: seq<Value>, before: seq<string>)
    requires (forall i :: 0 <= i < |subs| ==> IsDoc(subs[i])) && MergeAll(m, subs).Some?
    requires KeysOf(m.props) == Dedup(before)
    ensures KeysOf(MergeAll(m, subs).value.props) == Dedup(before + AllPropertyKeys(subs))
    decreases |subs|
  {
    hide Dedup, MergeEntries, IsDoc, PropertyKeys;
    if subs == [] {
      assert before + AllPropertyKeys(subs) == before;
    } else {
      assert IsDoc(subs[0]);
      PropsOfEntries(m, subs[0].entries, before);
      PropsOfAll(MergeEntries(m, subs[0].entries).value, subs[1..], before + PropertyKeys(subs[0]));
      assert before + PropertyKeys(subs[0]) + AllPropertyKeys(subs[1..]) == before + AllPropertyKeys(subs);
    }
  }

  /** Merged properties stand in the order in which their keys first occur. */
  lemma MergedOrder(subs: seq<Value>)
    requires (forall i :: 0 <= i < |subs| ==> IsDoc(subs[i])) && Merge(subs).Some?
    ensures PropertyKeys(Merge(subs).value) == Dedup(AllPropertyKeys(subs))
  {
    hide Dedup, MergeAll, DictSet, IsDoc, Lookup, AllPropertyKeys, Strings;
    var empty := Merging([], [], []);
    var m := MergeAll(empty, subs).value;
    assert KeysOf([]) == [] && Dedup([]) == [] by { DedupNothing(); }
    PropsOfAll(empty, subs, []);
    assert [] + AllPropertyKeys(subs) == AllPropertyKeys(subs);
    PropertiesStayOut(subs);
    var withProps := if m.props == [] then m.merged else DictSet(m.merged, "properties", Map(m.props));
    var required := StrValues(Dedup(m.required));
    LookupSet(m.merged, "properties", Map(m.props), "properties");
    LookupSet(withProps, "required", required, "properties");
  }

  /** `properties` never gets into the other keys. */
  lemma PropertiesStayOut(subs: seq<Value>)
    requires (forall i :: 0 <= i < |subs| ==> IsDoc(subs[i])) && MergeAll(Merging([], [], []), subs).Some?
    ensures Lookup(MergeAll(Merging([], [], []), subs).value.merged, "properties").None?
  {
    hide IsDoc, MergeAll, Lookup;
    MergeAllTakesDicts(Merging([], [], []), subs);
    LookupNothing("properties");
    LookupNothing("required");
    MergeAllMeaning(Merging([], [], []), subs, "", "");
  }

  /** The merge has `properties` iff some property is merged, and `required` iff some name is. */
  lemma MergedKeys(subs: seq<Value>)
    requires (forall i :: 0 <= i < |subs| ==> IsDoc(subs[i])) && Merge(subs).Some?
    ensures var r := Merge(subs).value;
            && (Get(r, "properties").Some? <==> AllPropertyKeys(subs) != [])
            && Get(r, "required")
               == (if AllRequired(subs) == [] then None else Some(StrValues(Dedup(AllRequired(subs)))))
  {
    hide Dedup, MergeAll, DictSet, IsDoc, Lookup, AllPropertyKeys, AllRequired, Strings;
    var empty := Merging([], [], []);
    var m := MergeAll(empty, subs).value;
    assert KeysOf([]) == [] && Dedup([]) == [] by { DedupNothing(); }
    PropsOfAll(empty, subs, []);
    assert [] + AllPropertyKeys(subs) == AllPropertyKeys(subs);
    DedupOfSome(AllPropertyKeys(subs));
    MergeAllTakesDicts(empty, subs);
    LookupNothing("properties");
    LookupNothing("required");
    MergeAllMeaning(empty, subs, "", "");
    assert [] + AllRequired(subs) == AllRequired(subs);
    var withProps := if m.props == [] then m.merged else DictSet(m.merged, "properties", Map(m.props));
    var required := StrValues(Dedup(m.required));
    LookupSet(m.merged, "properties", Map(m.props), "properties");
    LookupSet(m.merged, "properties", Map(m.props), "required");
    LookupSet(withProps, "required", required, "properties");
    LookupSet(withProps, "required", required, "required");
  }

  lemma DedupOfSome(items: seq<string>)
    ensures Dedup(items) == [] <==> items == []
  {
    hide Dedup;
    DedupMeaning(items);
    DedupNothing();
    if items != [] {
      assert items[0] in items;
    }
  }
}
