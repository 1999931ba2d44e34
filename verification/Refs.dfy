/** `$ref` and `allOf` resolution over a parsed spec that may refer to itself: the depth-bounded
    resolver and what merging keeps. A result None stands for a Python exception on an ill-typed
    schema. */
module Refs {
  import opened Text
  import opened YamlText

  function Lookup(entries: seq<Entry>, key: string): Option<Value> {
    if entries == [] then None
    else if entries[0].key == key then Some(entries[0].val)
    else Lookup(entries[1..], key)
  }

  function Get(v: Value, key: string): Option<Value> {
    if v.Map? then Lookup(v.entries, key) else None
  }

  /** Python's `key in v`: dict keys, list items or substrings; an exception on anything else. */
  function Has(v: Value, key: string): Option<bool> {
    match v
    case Map(entries) => Some(Lookup(entries, key).Some?)
    case Seq(items) => Some(Str(key) in items)
    case Str(s) => Some(Occurs(key, s))
    case _ => None
  }

  // ---------------------------------------------------------------- references

  function WalkRef(node: Value, parts: seq<string>): Value
    decreases |parts|
  {
    if parts == [] then (if node.Map? then node else Map([]))
    else if !node.Map? then Map([])
    else WalkRef(Get(node, parts[0]).GetOr(Map([])), parts[1..])
  }

  function ResolveRef(spec: Value, ref: string): Value {
    if StartsWith(ref, "#/") then WalkRef(spec, Split(ref[2..], '/')) else Map([])
  }

  method ResolveRefLoop(spec: Value, ref: string) returns (r: Value)
    ensures r == ResolveRef(spec, ref)
  {
    if !StartsWith(ref, "#/") {
      return Map([]);
    }
    var parts := Split(ref[2..], '/');
    var node := spec;
    for i := 0 to |parts|
      invariant WalkRef(node, parts[i..]) == WalkRef(spec, parts)
    {
      assert parts[i..][1..] == parts[i + 1..];
      if node.Map? {
        node := Get(node, parts[i]).GetOr(Map([]));
      } else {
        return Map([]);
      }
    }
    r := if node.Map? then node else Map([]);
  }

  /** What stands at a path of keys. */
  function At(node: Value, path: seq<string>): Option<Value>
    decreases |path|
  {
    if path == [] then Some(node)
    else match Get(node, path[0])
      case None => None
      case Some(next) => At(next, path[1..])
  }

  function MapOr(v: Option<Value>, default: Value): Value {
    if v.Some? && v.value.Map? then v.value else default
  }

  lemma {:induction false} WalkMeaning(node: Value, parts: seq<string>)
    ensures WalkRef(node, parts) == MapOr(At(node, parts), Map([]))
    decreases |parts|
  {
    if parts != [] {
      if Get(node, parts[0]).Some? {
        WalkMeaning(Get(node, parts[0]).value, parts[1..]);
      } else {
        NothingBelow(parts[1..]);
      }
    }
  }

  lemma {:induction false} NothingBelow(parts: seq<string>)
    ensures WalkRef(Map([]), parts) == Map([])
  {
    if parts != [] {
      assert Get(Map([]), parts[0]).None?;
      NothingBelow(parts[1..]);
    }
  }

  /** A reference made of keys leads to the mapping at that path, and to an empty one when there
      is none. */
  lemma ReferenceMeaning(spec: Value, path: seq<string>)
    requires path != [] && forall i :: 0 <= i < |path| ==> '/' !in path[i]
    ensures ResolveRef(spec, "#/" + Join(path, "/")) == MapOr(At(spec, path), Map([]))
  {
    hide Join, Split, WalkRef, At;
    var ref := "#/" + Join(path, "/");
    assert ref[2..] == Join(path, "/") && ref[..2] == "#/";
    SplitJoin(path, '/');
    WalkMeaning(spec, path);
  }

  // ---------------------------------------------------------------- merging

  /** The three accumulators of an `allOf`. */
  datatype Merging = Merging(merged: seq<Entry>, props: seq<Entry>, required: seq<string>)

  function PutAll(entries: seq<Entry>, more: seq<Entry>): seq<Entry>
    decreases |more|
  {
    if more == [] then entries else PutAll(DictSet(entries, more[0].key, more[0].val), more[1..])
  }

  function Strings(items: seq<Value>): Option<seq<string>> {
    if items == [] then Some([])
    else if !items[0].Str? then None
    else match Strings(items[1..])
      case None => None
      case Some(rest) => Some([items[0].s] + rest)
  }

  function MergeEntry(m: Merging, e: Entry): Option<Merging> {
    if e.key == "properties" then
      if e.val.Map? then Some(m.(props := PutAll(m.props, e.val.entries))) else None
    else if e.key == "required" then
      if !e.val.Seq? || Strings(e.val.items).None? then None
      else Some(m.(required := m.required + Strings(e.val.items).value))
    else Some(m.(merged := DictSet(m.merged, e.key, e.val)))
  }

  function MergeEntries(m: Merging, entries: seq<Entry>): Option<Merging>
    decreases |entries|
  {
    if entries == [] then Some(m)
    else match MergeEntry(m, entries[0])
      case None => None
      case Some(next) => MergeEntries(next, entries[1..])
  }

  function MergeAll(m: Merging, subs: seq<Value>): Option<Merging>
    decreases |subs|
  {
    if subs == [] then Some(m)
    else if !subs[0].Map? then None
    else match MergeEntries(m, subs[0].entries)
      case None => None
      case Some(next) => MergeAll(next, subs[1..])
  }

  /** `list(dict.fromkeys(items))`. */
  function Dedup(items: seq<string>): seq<string> {
    if items == [] then []
    else
      var init, last := Dedup(items[..|items| - 1]), items[|items| - 1];
      if last in init then init else init + [last]
  }

  function StrValues(ss: seq<string>): Value {
    Seq(seq(|ss|, i requires 0 <= i < |ss| => Str(ss[i])))
  }

  function Finish(m: Merging): Value {
    var withProps := if m.props == [] then m.merged else DictSet(m.merged, "properties", Map(m.props));
    Map(if m.required == [] then withProps else DictSet(withProps, "required", StrValues(Dedup(m.required))))
  }

  function Merge(subs: seq<Value>): Option<Value> {
    match MergeAll(Merging([], [], []), subs)
    case None => None
    case Some(m) => Some(Finish(m))
  }

  // ---------------------------------------------------------------- resolution

  datatype Step =
    | Raises
    | Done(value: Value)
    | Follow(target: Value)
    | Combine(items: seq<Value>)

  /** What `resolve_schema` does with a schema, the depth bound aside. */
  function StepOf(spec: Value, schema: Value): Step {
    if schema.Null? then Done(Map([]))
    else match Has(schema, "$ref")
      case None => Raises
      case Some(true) =>
        var ref := Get(schema, "$ref");
        if ref.Some? && ref.value.Str? then Follow(ResolveRef(spec, ref.value.s)) else Raises
      case Some(false) =>
        match Has(schema, "allOf")
        case None => Raises
        case Some(true) =>
          var all := Get(schema, "allOf");
          if all.Some? && all.value.Seq? then Combine(all.value.items) else Raises
        case Some(false) => Done(schema)
  }

  const MAX_DEPTH := 10

  function Budget(depth: nat): nat {
    if depth > MAX_DEPTH then 0 else MAX_DEPTH + 1 - depth
  }

  function ResolveSchema(spec: Value, schema: Value, depth: nat): Option<Value>
    decreases Budget(depth), 0, 0
  {
    if schema.Null? then Some(Map([]))
    else if depth > MAX_DEPTH then Some(schema)
    else match StepOf(spec, schema)
      case Raises => None
      case Done(v) => Some(v)
      case Follow(target) => ResolveSchema(spec, target, depth + 1)
      case Combine(items) =>
        match ResolveItems(spec, items, depth + 1)
        case None => None
        case Some(subs) => Merge(subs)
  }

  function ResolveItems(spec: Value, items: seq<Value>, depth: nat): Option<seq<Value>>
    decreases Budget(depth), 1, |items|
  {
    if items == [] then Some([])
    else match ResolveSchema(spec, items[0], depth)
      case None => None
      case Some(first) =>
        match ResolveItems(spec, items[1..], depth)
        case None => None
        case Some(rest) => Some([first] + rest)
  }

  // ---------------------------------------------------------------- what merging keeps

  lemma {:induction false} LookupSet(entries: seq<Entry>, key: string, val: Value, k: string)
    ensures Lookup(DictSet(entries, key, val), k) == if k == key then Some(val) else Lookup(entries, k)
  {
    if entries != [] && entries[0].key != key {
      LookupSet(entries[1..], key, val, k);
    }
  }

  lemma {:induction false} LookupFinds(entries: seq<Entry>, k: string)
    ensures Lookup(entries, k).Some? <==> HasKey(entries, k)
  {
    if entries != [] && entries[0].key != k {
      LookupFinds(entries[1..], k);
      if HasKey(entries[1..], k) {
        var i :| 0 <= i < |entries[1..]| && entries[1..][i].key == k;
        assert entries[i + 1].key == k;
      }
      if HasKey(entries, k) {
        var i :| 0 <= i < |entries| && entries[i].key == k;
        assert entries[1..][i - 1].key == k;
      }
    }
  }

  lemma DistinctSplit(entries: seq<Entry>)
    requires entries != []
    ensures DistinctKeys(entries) <==> Lookup(entries[1..], entries[0].key).None? && DistinctKeys(entries[1..])
  {
    var rest := entries[1..];
    assert forall i :: 0 <= i < |rest| ==> rest[i] == entries[i + 1];
    LookupFinds(rest, entries[0].key);
    if DistinctKeys(rest) && !HasKey(rest, entries[0].key) {
      forall i, j | 0 <= i < j < |entries| ensures entries[i].key != entries[j].key {
        assert entries[j] == rest[j - 1];
        assert i > 0 ==> entries[i] == rest[i - 1];
      }
    }
  }

  /** A Python value: every mapping in it is a dict. */
  predicate IsDoc(v: Value) {
    match v
    case Seq(items) => forall i :: 0 <= i < |items| ==> IsDoc(items[i])
    case Map(entries) => DistinctKeys(entries) && forall i :: 0 <= i < |entries| ==> IsDoc(entries[i].val)
    case _ => true
  }

  lemma DocSplit(entries: seq<Entry>)
    requires entries != [] && IsDoc(Map(entries))
    ensures Lookup(entries[1..], entries[0].key).None? && IsDoc(Map(entries[1..])) && IsDoc(entries[0].val)
  {
    DistinctSplit(entries);
  }

  lemma DocCons(e: Entry, rest: seq<Entry>)
    requires IsDoc(e.val) && IsDoc(Map(rest)) && Lookup(rest, e.key).None?
    ensures IsDoc(Map([e] + rest))
  {
    var all := [e] + rest;
    assert all[1..] == rest;
    DistinctSplit(all);
    assert forall i :: 0 < i < |all| ==> all[i] == rest[i - 1];
  }

  lemma {:induction false} LookupPutAll(entries: seq<Entry>, more: seq<Entry>, k: string)
    requires DistinctKeys(more)
    ensures Lookup(PutAll(entries, more), k) == if Lookup(more, k).Some? then Lookup(more, k) else Lookup(entries, k)
    decreases |more|
  {
    hide DistinctKeys;
    if more != [] {
      DistinctSplit(more);
      LookupPutAll(DictSet(entries, more[0].key, more[0].val), more[1..], k);
      LookupSet(entries, more[0].key, more[0].val, k);
    }
  }

  /** The key's value in the last sub-schema that has it. */
  function LastOf(subs: seq<Value>, key: string): Option<Value> {
    if subs == [] then None
    else
      var later := LastOf(subs[1..], key);
      if later.Some? then later else Get(subs[0], key)
  }

  function PropertyOf(sub: Value, name: string): Option<Value> {
    match Get(sub, "properties")
    case None => None
    case Some(p) => Get(p, name)
  }

  /** The property in the last sub-schema that declares it. */
  function LastProperty(subs: seq<Value>, name: string): Option<Value> {
    if subs == [] then None
    else
      var later := LastProperty(subs[1..], name);
      if later.Some? then later else PropertyOf(subs[0], name)
  }

  function RequiredOf(sub: Value): seq<string> {
    match Get(sub, "required")
    case Some(Seq(items)) => Strings(items).GetOr([])
    case _ => []
  }

  function AllRequired(subs: seq<Value>): seq<string> {
    if subs == [] then [] else RequiredOf(subs[0]) + AllRequired(subs[1..])
  }

  /** One sub-schema folded into the accumulators, for a key k, a property p and the required list. */
  lemma {:induction false} MergeEntriesMeaning(m: Merging, entries: seq<Entry>, k: string, p: string)
    requires IsDoc(Map(entries)) && MergeEntries(m, entries).Some? && k != "properties" && k != "required"
    ensures var r := MergeEntries(m, entries).value;
            var sub := Map(entries);
            && Lookup(r.merged, k) == (if Get(sub, k).Some? then Get(sub, k) else Lookup(m.merged, k))
            && Lookup(r.props, p) == (if PropertyOf(sub, p).Some? then PropertyOf(sub, p) else Lookup(m.props, p))
            && r.required == m.required + RequiredOf(sub)
            && (Lookup(m.merged, "properties").None? ==> Lookup(r.merged, "properties").None?)
            && (Lookup(m.merged, "required").None? ==> Lookup(r.merged, "required").None?)
    decreases |entries|
  {
    if entries != [] {
      var e, rest := entries[0], entries[1..];
      var next := MergeEntry(m, e).value;
      DocSplit(entries);
      MergeEntriesMeaning(next, rest, k, p);
      MergeEntryMeaning(m, e, k, p);
    }
  }

  lemma MergeEntryMeaning(m: Merging, e: Entry, k: string, p: string)
    requires MergeEntry(m, e).Some? && k != "properties" && k != "required"
    requires IsDoc(e.val)
    ensures var r := MergeEntry(m, e).value;
            && Lookup(r.merged, k) == (if e.key == k then Some(e.val) else Lookup(m.merged, k))
            && Lookup(r.props, p)
               == (if e.key == "properties" && Get(e.val, p).Some? then Get(e.val, p) else Lookup(m.props, p))
            && r.required == m.required + (if e.key == "required" then Strings(e.val.items).value else [])
            && (Lookup(m.merged, "properties").None? ==> Lookup(r.merged, "properties").None?)
            && (Lookup(m.merged, "required").None? ==> Lookup(r.merged, "required").None?)
  {
    if e.key == "properties" {
      LookupPutAll(m.props, e.val.entries, p);
    } else if e.key != "required" {
      LookupSet(m.merged, e.key, e.val, k);
      LookupSet(m.merged, e.key, e.val, "properties");
      LookupSet(m.merged, e.key, e.val, "required");
    }
    assert m.required + [] == m.required;
  }

  lemma {:induction false} MergeAllMeaning(m: Merging, subs: seq<Value>, k: string, p: string)
    requires (forall i :: 0 <= i < |subs| ==> subs[i].Map? && IsDoc(subs[i])) && MergeAll(m, subs).Some?
    requires k != "properties" && k != "required"
    ensures var r := MergeAll(m, subs).value;
            && Lookup(r.merged, k) == (if LastOf(subs, k).Some? then LastOf(subs, k) else Lookup(m.merged, k))
            && Lookup(r.props, p) == (if LastProperty(subs, p).Some? then LastProperty(subs, p) else Lookup(m.props, p))
            && r.required == m.required + AllRequired(subs)
            && (Lookup(m.merged, "properties").None? ==> Lookup(r.merged, "properties").None?)
            && (Lookup(m.merged, "required").None? ==> Lookup(r.merged, "required").None?)
    decreases |subs|
  {
    hide IsDoc, PropertyOf, RequiredOf, Lookup, MergeEntries;
    if subs != [] {
      assert IsDoc(subs[0]);
      var next := MergeEntries(m, subs[0].entries).value;
      MergeEntriesMeaning(m, subs[0].entries, k, p);
      MergeAllMeaning(next, subs[1..], k, p);
      assert m.required + RequiredOf(subs[0]) + AllRequired(subs[1..]) == m.required + AllRequired(subs);
    } else {
      assert m.required + [] == m.required;
    }
  }

  /** What an `allOf` gives: every key from the last sub-schema that has it, the properties as the
      last-wins union, and `required` as the concatenation without repetitions. */
  lemma MergeMeaning(subs: seq<Value>, k: string, p: string)
    requires (forall i :: 0 <= i < |subs| ==> subs[i].Map? && IsDoc(subs[i])) && Merge(subs).Some?
    requires k != "properties" && k != "required"
    ensures var r := Merge(subs).value;
            && r.Map? && Get(r, k) == LastOf(subs, k)
            && PropertyOf(r, p) == LastProperty(subs, p)
            && RequiredOf(r) == Dedup(AllRequired(subs))
  {
    hide LastOf, LastProperty, AllRequired, IsDoc, MergeAll, DictSet, Dedup, Lookup, Strings;
    var empty := Merging([], [], []);
    var m := MergeAll(empty, subs).value;
    MergeAllMeaning(empty, subs, k, p);
    assert Lookup([], k) == None && Lookup([], p) == None
           && Lookup([], "properties") == None && Lookup([], "required") == None by {
      LookupNothing(k);
      LookupNothing(p);
      LookupNothing("properties");
      LookupNothing("required");
    }
    assert [] + AllRequired(subs) == AllRequired(subs);
    FinishMeaning(m, k, p);
  }

  lemma LookupNothing(k: string)
    ensures Lookup([], k) == None
  {
  }

  lemma {:induction false} StringsOfStr(ss: seq<string>)
    ensures Strings(StrValues(ss).items) == Some(ss)
  {
    if ss != [] {
      assert StrValues(ss).items[1..] == StrValues(ss[1..]).items;
      StringsOfStr(ss[1..]);
      assert [ss[0]] + ss[1..] == ss;
    }
  }

  lemma FinishMeaning(m: Merging, k: string, p: string)
    requires Lookup(m.merged, "properties").None? && Lookup(m.merged, "required").None?
    requires k != "properties" && k != "required"
    ensures var r := Finish(m);
            && r.Map? && Get(r, k) == Lookup(m.merged, k)
            && PropertyOf(r, p) == Lookup(m.props, p)
            && RequiredOf(r) == Dedup(m.required)
  {
    hide Lookup, DictSet, Dedup, Strings;
    var required := StrValues(Dedup(m.required));
    var withProps := if m.props == [] then m.merged else DictSet(m.merged, "properties", Map(m.props));
    LookupSet(m.merged, "properties", Map(m.props), k);
    LookupSet(m.merged, "properties", Map(m.props), "properties");
    LookupSet(m.merged, "properties", Map(m.props), "required");
    LookupSet(withProps, "required", required, k);
    LookupSet(withProps, "required", required, "properties");
    LookupSet(withProps, "required", required, "required");
    LookupNothing(p);
    StringsOfStr(Dedup(m.required));
    assert Dedup([]) == [] by { DedupNothing(); }
  }

  lemma DedupNothing()
    ensures Dedup([]) == []
  {
  }

  // ---------------------------------------------------------------- duplicates

  function FirstIndex(items: seq<string>, x: string): (i: nat)
    requires x in items
    ensures i < |items| && items[i] == x && x !in items[..i]
  {
    if items[0] == x then 0
    else
      assert items == [items[0]] + items[1..];
      var i := 1 + FirstIndex(items[1..], x);
      assert items[..i] == [items[0]] + items[1..][..i - 1];
      i
  }

  lemma {:induction false} FirstIndexOfPrefix(items: seq<string>, last: string, x: string)
    requires x in items
    ensures FirstIndex(items + [last], x) == FirstIndex(items, x)
  {
    if items[0] != x {
      assert items == [items[0]] + items[1..];
      assert (items + [last])[1..] == items[1..] + [last];
      FirstIndexOfPrefix(items[1..], last, x);
    }
  }

  /** Without repetitions, the same elements, in the order of their first occurrences. */
  ghost predicate IsDedupOf(r: seq<string>, items: seq<string>) {
    && (forall x :: x in r <==> x in items)
    && forall i, j :: 0 <= i < j < |r| ==> FirstIndex(items, r[i]) < FirstIndex(items, r[j])
  }

  lemma {:induction false} DedupMeaning(items: seq<string>)
    ensures IsDedupOf(Dedup(items), items)
  {
    if items != [] {
      var init, last := items[..|items| - 1], items[|items| - 1];
      assert items == init + [last];
      DedupMeaning(init);
      var d, r := Dedup(init), Dedup(items);
      forall i, j | 0 <= i < j < |r| ensures FirstIndex(items, r[i]) < FirstIndex(items, r[j]) {
        assert r[i] == d[i] && d[i] in init;
        FirstIndexOfPrefix(init, last, r[i]);
        if j < |d| {
          assert r[j] == d[j] && d[j] in init;
          FirstIndexOfPrefix(init, last, r[j]);
        } else {
          assert last !in init;
          assert FirstIndex(items, last) >= |init|;
        }
      }
    }
  }

  // ---------------------------------------------------------------- dicts stay dicts

  lemma {:induction false} LookupIsDoc(entries: seq<Entry>, key: string)
    requires (forall i :: 0 <= i < |entries| ==> IsDoc(entries[i].val)) && Lookup(entries, key).Some?
    ensures IsDoc(Lookup(entries, key).value)
  {
    if entries[0].key != key {
      LookupIsDoc(entries[1..], key);
    }
  }

  lemma GetIsDoc(v: Value, key: string)
    requires IsDoc(v) && Get(v, key).Some?
    ensures IsDoc(Get(v, key).value)
  {
    LookupIsDoc(v.entries, key);
  }

  lemma {:induction false} WalkIsDoc(node: Value, parts: seq<string>)
    requires IsDoc(node)
    ensures IsDoc(WalkRef(node, parts)) && WalkRef(node, parts).Map?
    decreases |parts|
  {
    if parts != [] && node.Map? {
      if Get(node, parts[0]).Some? {
        GetIsDoc(node, parts[0]);
      }
      WalkIsDoc(Get(node, parts[0]).GetOr(Map([])), parts[1..]);
    }
  }

  lemma ResolveRefIsDoc(spec: Value, ref: string)
    requires IsDoc(spec)
    ensures IsDoc(ResolveRef(spec, ref)) && ResolveRef(spec, ref).Map?
  {
    if StartsWith(ref, "#/") {
      WalkIsDoc(spec, Split(ref[2..], '/'));
    }
  }

  lemma {:induction false} SetIsDoc(entries: seq<Entry>, key: string, val: Value)
    requires IsDoc(Map(entries)) && IsDoc(val)
    ensures IsDoc(Map(DictSet(entries, key, val)))
  {
    hide IsDoc, DistinctKeys;
    if entries == [] {
      DocCons(Entry(key, val), []);
      assert [Entry(key, val)] + [] == [Entry(key, val)];
    } else {
      DocSplit(entries);
      if entries[0].key == key {
        DocCons(Entry(key, val), entries[1..]);
      } else {
        SetIsDoc(entries[1..], key, val);
        LookupSet(entries[1..], key, val, entries[0].key);
        DocCons(entries[0], DictSet(entries[1..], key, val));
      }
    }
  }

  lemma {:induction false} PutAllIsDoc(entries: seq<Entry>, more: seq<Entry>)
    requires IsDoc(Map(entries)) && forall i :: 0 <= i < |more| ==> IsDoc(more[i].val)
    ensures IsDoc(Map(PutAll(entries, more)))
    decreases |more|
  {
    hide IsDoc;
    if more != [] {
      SetIsDoc(entries, more[0].key, more[0].val);
      PutAllIsDoc(DictSet(entries, more[0].key, more[0].val), more[1..]);
    }
  }

  /** The accumulators hold dicts, and no key named k. */
  predicate GoodMerging(m: Merging, k: string) {
    Lookup(m.merged, k).None? && IsDoc(Map(m.merged)) && IsDoc(Map(m.props))
  }

  lemma {:induction false} MergeEntriesKeep(m: Merging, entries: seq<Entry>, k: string)
    requires GoodMerging(m, k) && IsDoc(Map(entries)) && Lookup(entries, k).None? && MergeEntries(m, entries).Some?
    ensures GoodMerging(MergeEntries(m, entries).value, k)
    decreases |entries|
  {
    hide GoodMerging, IsDoc;
    if entries != [] {
      DocSplit(entries);
      MergeEntryKeeps(m, entries[0], k);
      MergeEntriesKeep(MergeEntry(m, entries[0]).value, entries[1..], k);
    }
  }

  lemma MergeEntryKeeps(m: Merging, e: Entry, k: string)
    requires GoodMerging(m, k) && e.key != k && MergeEntry(m, e).Some? && IsDoc(e.val)
    ensures GoodMerging(MergeEntry(m, e).value, k)
  {
    if e.key == "properties" {
      PutAllIsDoc(m.props, e.val.entries);
    } else if e.key != "required" {
      SetIsDoc(m.merged, e.key, e.val);
      LookupSet(m.merged, e.key, e.val, k);
    }
  }

  lemma {:induction false} MergeAllKeeps(m: Merging, subs: seq<Value>, k: string)
    requires GoodMerging(m, k) && MergeAll(m, subs).Some?
    requires forall i :: 0 <= i < |subs| ==> IsDoc(subs[i]) && Get(subs[i], k).None?
    ensures GoodMerging(MergeAll(m, subs).value, k)
    decreases |subs|
  {
    hide GoodMerging;
    if subs != [] {
      assert IsDoc(subs[0]) && Get(subs[0], k).None?;
      MergeEntriesKeep(m, subs[0].entries, k);
      MergeAllKeeps(MergeEntries(m, subs[0].entries).value, subs[1..], k);
    }
  }

  /** Merging dicts none of which has key k gives a dict without k. */
  lemma MergeKeeps(subs: seq<Value>, k: string)
    requires Merge(subs).Some? && k != "properties" && k != "required"
    requires forall i :: 0 <= i < |subs| ==> IsDoc(subs[i]) && Get(subs[i], k).None?
    ensures IsDoc(Merge(subs).value) && Merge(subs).value.Map? && Get(Merge(subs).value, k).None?
  {
    hide MergeAll, DictSet;
    var m := MergeAll(Merging([], [], []), subs).value;
    assert IsDoc(Map([]));
    MergeAllKeeps(Merging([], [], []), subs, k);
    var withProps := if m.props == [] then m.merged else DictSet(m.merged, "properties", Map(m.props));
    SetIsDoc(m.merged, "properties", Map(m.props));
    LookupSet(m.merged, "properties", Map(m.props), k);
    var required := StrValues(Dedup(m.required));
    assert IsDoc(required);
    SetIsDoc(withProps, "required", required);
    LookupSet(withProps, "required", required, k);
  }

  lemma EmptyIsDoc()
    ensures IsDoc(Map([]))
  {
  }

  lemma ItemsAreDocs(items: seq<Value>)
    requires IsDoc(Seq(items))
    ensures forall i :: 0 <= i < |items| ==> IsDoc(items[i])
  {
  }

  lemma MergeTakesDicts(subs: seq<Value>)
    requires Merge(subs).Some?
    ensures forall i :: 0 <= i < |subs| ==> subs[i].Map?
  {
    MergeAllTakesDicts(Merging([], [], []), subs);
  }

  lemma {:induction false} MergeAllTakesDicts(m: Merging, subs: seq<Value>)
    requires MergeAll(m, subs).Some?
    ensures forall i :: 0 <= i < |subs| ==> subs[i].Map?
    decreases |subs|
  {
    hide MergeEntries;
    if subs != [] {
      MergeAllTakesDicts(MergeEntries(m, subs[0].entries).value, subs[1..]);
    }
  }

  lemma {:induction false} ResolveIsDoc(spec: Value, schema: Value, depth: nat)
    requires IsDoc(spec) && IsDoc(schema) && ResolveSchema(spec, schema, depth).Some?
    ensures IsDoc(ResolveSchema(spec, schema, depth).value)
    decreases Budget(depth), 0, 0
  {
    hide IsDoc, Merge;
    EmptyIsDoc();
    if !schema.Null? && depth <= MAX_DEPTH {
      match StepOf(spec, schema)
      case Done(v) =>
      case Follow(target) =>
        ResolveRefIsDoc(spec, Get(schema, "$ref").value.s);
        ResolveIsDoc(spec, target, depth + 1);
      case Combine(items) =>
        GetIsDoc(schema, "allOf");
        ItemsAreDocs(items);
        ResolveItemsAreDocs(spec, items, depth + 1);
        MergeIsDoc(ResolveItems(spec, items, depth + 1).value);
    }
  }

  lemma {:induction false} ResolveItemsAreDocs(spec: Value, items: seq<Value>, depth: nat)
    requires IsDoc(spec) && (forall i :: 0 <= i < |items| ==> IsDoc(items[i])) && ResolveItems(spec, items, depth).Some?
    ensures forall i :: 0 <= i < |ResolveItems(spec, items, depth).value| ==>
              IsDoc(ResolveItems(spec, items, depth).value[i])
    decreases Budget(depth), 1, |items|
  {
    hide IsDoc, ResolveSchema;
    if items != [] {
      ResolveIsDoc(spec, items[0], depth);
      ResolveItemsAreDocs(spec, items[1..], depth);
    }
  }

  /** Some key is in none of finitely many dicts, so merging dicts gives a dict. */
  lemma MergeIsDoc(subs: seq<Value>)
    requires Merge(subs).Some? && forall i :: 0 <= i < |subs| ==> IsDoc(subs[i])
    ensures IsDoc(Merge(subs).value)
  {
    hide IsDoc;
    var k := FreshKey(subs);
    MergeKeeps(subs, k);
  }

  lemma FreshKey(subs: seq<Value>) returns (k: string)
    ensures k != "properties" && k != "required" && forall i :: 0 <= i < |subs| ==> Get(subs[i], k).None?
  {
    var n := LongestKey(subs);
    k := Spaces(n + 11);
    forall i | 0 <= i < |subs| ensures Get(subs[i], k).None? {
      if Get(subs[i], k).Some? {
        LookupFinds(subs[i].entries, k);
      }
    }
  }

  lemma {:induction false} LongestKey(subs: seq<Value>) returns (n: nat)
    ensures forall i, j :: 0 <= i < |subs| && subs[i].Map? && 0 <= j < |subs[i].entries| ==>
              |subs[i].entries[j].key| <= n
  {
    if subs == [] {
      n := 0;
    } else {
      n := LongestKey(subs[1..]);
      if subs[0].Map? {
        var m := LongestEntry(subs[0].entries);
        n := n + m;
      }
    }
  }

  lemma {:induction false} LongestEntry(entries: seq<Entry>) returns (n: nat)
    ensures forall j :: 0 <= j < |entries| ==> |entries[j].key| <= n
  {
    if entries == [] {
      n := 0;
    } else {
      n := LongestEntry(entries[1..]);
      n := n + |entries[0].key|;
    }
  }
}
