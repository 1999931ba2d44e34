/** Resolution without a depth bound, and exactly when the depth-bounded resolver is that one. */
module Resolution {
  import opened Text
  import opened YamlText
  import opened Refs

  /** Resolution without the depth bound, for schemas of `$ref`/`allOf` height at most h:
      None when the height is larger, Some(None) when Python raises. */
  function Full(spec: Value, schema: Value, h: nat): Option<Option<Value>>
    decreases h, 0, 0
  {
    match StepOf(spec, schema)
    case Raises => Some(None)
    case Done(v) => Some(Some(v))
    case Follow(target) => if h == 0 then None else Full(spec, target, h - 1)
    case Combine(items) =>
      if h == 0 then None
      else match FullItems(spec, items, h - 1)
        case None => None
        case Some(None) => Some(None)
        case Some(Some(subs)) => Some(Merge(subs))
  }

  function FullItems(spec: Value, items: seq<Value>, h: nat): Option<Option<seq<Value>>>
    decreases h, 1, |items|
  {
    if items == [] then Some(Some([]))
    else match Full(spec, items[0], h)
      case None => None
      case Some(first) =>
        match FullItems(spec, items[1..], h)
        case None => None
        case Some(rest) => Some(if first.None? || rest.None? then None else Some([first.value] + rest.value))
  }

  /** r is what unbounded resolution gives (None: Python raises). */
  ghost predicate ResolvesTo(spec: Value, schema: Value, r: Option<Value>) {
    exists h: nat :: Full(spec, schema, h) == Some(r)
  }

  lemma {:induction false} FullGrows(spec: Value, schema: Value, h: nat, h': nat)
    requires h <= h' && Full(spec, schema, h).Some?
    ensures Full(spec, schema, h') == Full(spec, schema, h)
    decreases h, 0, 0
  {
    hide StepOf, Merge;
    match StepOf(spec, schema)
    case Raises =>
    case Done(v) =>
    case Follow(target) => FullGrows(spec, target, h - 1, h' - 1);
    case Combine(items) => FullItemsGrow(spec, items, h - 1, h' - 1);
  }

  lemma {:induction false} FullItemsGrow(spec: Value, items: seq<Value>, h: nat, h': nat)
    requires h <= h' && FullItems(spec, items, h).Some?
    ensures FullItems(spec, items, h') == FullItems(spec, items, h)
    decreases h, 1, |items|
  {
    if items != [] {
      FullGrows(spec, items[0], h, h');
      FullItemsGrow(spec, items[1..], h, h');
    }
  }

  /** Unbounded resolution has at most one result. */
  lemma ResolutionIsUnique(spec: Value, schema: Value, r1: Option<Value>, r2: Option<Value>)
    requires ResolvesTo(spec, schema, r1) && ResolvesTo(spec, schema, r2)
    ensures r1 == r2
  {
    hide Full;
    var h1: nat :| Full(spec, schema, h1) == Some(r1);
    var h2: nat :| Full(spec, schema, h2) == Some(r2);
    FullGrows(spec, schema, h1, h1 + h2);
    FullGrows(spec, schema, h2, h1 + h2);
  }

  /** Within the bound the resolver is the unbounded one: `$ref`/`allOf` height plus starting depth
      at most 11, or at most 10 when Python raises. */
  lemma {:induction false} BoundedIsFull(spec: Value, schema: Value, depth: nat, h: nat)
    requires Full(spec, schema, h).Some?
    requires h + depth <= if Full(spec, schema, h).value.Some? then 11 else 10
    ensures ResolveSchema(spec, schema, depth) == Full(spec, schema, h).value
    decreases h, 0, 0
  {
    hide StepOf, Merge;
    if schema.Null? {
      NullStep(spec, schema);
      return;
    }
    DoneIsSchema(spec, schema);
    match StepOf(spec, schema)
    case Raises =>
    case Done(v) =>
    case Follow(target) => BoundedIsFull(spec, target, depth + 1, h - 1);
    case Combine(items) => BoundedItemsAreFull(spec, items, depth + 1, h - 1);
  }

  lemma NullStep(spec: Value, schema: Value)
    requires schema.Null?
    ensures StepOf(spec, schema) == Done(Map([]))
  {
  }

  lemma DoneIsSchema(spec: Value, schema: Value)
    requires !schema.Null?
    ensures StepOf(spec, schema).Done? ==> StepOf(spec, schema) == Done(schema)
    ensures StepOf(spec, schema).Done? <==> IsPlain(schema)
  {
  }

  lemma {:induction false} BoundedItemsAreFull(spec: Value, items: seq<Value>, depth: nat, h: nat)
    requires FullItems(spec, items, h).Some?
    requires h + depth <= if FullItems(spec, items, h).value.Some? then 11 else 10
    ensures ResolveItems(spec, items, depth) == FullItems(spec, items, h).value
    decreases h, 1, |items|
  {
    if items != [] {
      BoundedIsFull(spec, items[0], depth, h);
      BoundedItemsAreFull(spec, items[1..], depth, h);
    }
  }

  // ---------------------------------------------------------------- cycles

  /** Resolving a goes on to resolve b. */
  predicate LeadsTo(spec: Value, a: Value, b: Value) {
    match StepOf(spec, a)
    case Follow(target) => b == target
    case Combine(items) => b in items
    case _ => false
  }

  predicate IsCycle(spec: Value, cycle: seq<Value>) {
    cycle != [] && forall i :: 0 <= i < |cycle| ==> LeadsTo(spec, cycle[i], cycle[if i + 1 < |cycle| then i + 1 else 0])
  }

  lemma {:induction false} ItemHasHeight(spec: Value, items: seq<Value>, h: nat, b: Value)
    requires b in items && FullItems(spec, items, h).Some?
    ensures Full(spec, b, h).Some?
    decreases |items|
  {
    hide Full;
    if b != items[0] {
      ItemHasHeight(spec, items[1..], h, b);
    }
  }

  /** Nothing on a cycle has a height. */
  lemma {:induction false} CycleHasNoHeight(spec: Value, cycle: seq<Value>, h: nat, i: nat)
    requires IsCycle(spec, cycle) && i < |cycle|
    ensures Full(spec, cycle[i], h).None?
    decreases h
  {
    hide StepOf, Merge;
    var next := if i + 1 < |cycle| then i + 1 else 0;
    assert LeadsTo(spec, cycle[i], cycle[next]);
    if h > 0 {
      CycleHasNoHeight(spec, cycle, h - 1, next);
      match StepOf(spec, cycle[i])
      case Combine(items) =>
        if FullItems(spec, items, h - 1).Some? {
          ItemHasHeight(spec, items, h - 1, cycle[next]);
        }
      case _ =>
    }
  }

  /** A schema that refers directly to itself comes back as it is. */
  lemma {:induction false} SelfReferenceIsKept(spec: Value, schema: Value, depth: nat)
    requires StepOf(spec, schema) == Follow(schema)
    ensures ResolveSchema(spec, schema, depth) == Some(schema)
    decreases Budget(depth)
  {
    hide StepOf;
    assert !schema.Null? by { if schema.Null? { NullStep(spec, schema); } }
    if depth <= MAX_DEPTH {
      SelfReferenceIsKept(spec, schema, depth + 1);
    }
  }

  // ---------------------------------------------------------------- nothing left to resolve

  /** Neither a `$ref` nor an `allOf` at the top. */
  predicate IsPlain(v: Value) {
    Has(v, "$ref") == Some(false) && Has(v, "allOf") == Some(false)
  }

  /** A dict resolved without a bound is a dict with neither `$ref` nor `allOf` at the top. */
  lemma {:induction false} ResolvedIsPlain(spec: Value, schema: Value, h: nat)
    requires IsDoc(spec) && IsDoc(schema) && Full(spec, schema, h).Some? && Full(spec, schema, h).value.Some?
    ensures IsDoc(Full(spec, schema, h).value.value) && IsPlain(Full(spec, schema, h).value.value)
    decreases h, 0, 0
  {
    hide IsDoc, Merge;
    assert IsDoc(Map([])) && IsPlain(Map([])) by { NothingIsPlain(); }
    match StepOf(spec, schema)
    case Done(v) =>
    case Follow(target) =>
      ResolveRefIsDoc(spec, Get(schema, "$ref").value.s);
      ResolvedIsPlain(spec, target, h - 1);
    case Combine(items) =>
      GetIsDoc(schema, "allOf");
      assert forall i :: 0 <= i < |items| ==> IsDoc(items[i]) by { ItemsAreDocs(items); }
      ResolvedItemsArePlain(spec, items, h - 1);
      var subs := FullItems(spec, items, h - 1).value.value;
      MergeTakesDicts(subs);
      MergeKeeps(subs, "$ref");
      MergeKeeps(subs, "allOf");
  }

  lemma NothingIsPlain()
    ensures IsDoc(Map([])) && IsPlain(Map([]))
  {
  }

  lemma {:induction false} ResolvedItemsArePlain(spec: Value, items: seq<Value>, h: nat)
    requires IsDoc(spec) && (forall i :: 0 <= i < |items| ==> IsDoc(items[i]))
    requires FullItems(spec, items, h).Some? && FullItems(spec, items, h).value.Some?
    ensures forall i :: 0 <= i < |FullItems(spec, items, h).value.value| ==>
              IsDoc(FullItems(spec, items, h).value.value[i]) && IsPlain(FullItems(spec, items, h).value.value[i])
    decreases h, 1, |items|
  {
    hide IsDoc, IsPlain, Full;
    if items != [] {
      ResolvedIsPlain(spec, items[0], h);
      ResolvedItemsArePlain(spec, items[1..], h);
    }
  }

  // ---------------------------------------------------------------- with the bound

  /** Exactly when nothing is left to resolve: the `$ref`/`allOf` height plus the starting depth is
      at most 11; and then the result is that of unbounded resolution. */
  lemma {:induction false} PlainIffFull(spec: Value, schema: Value, depth: nat)
    requires IsDoc(spec) && IsDoc(schema) && ResolveSchema(spec, schema, depth).Some?
    ensures var r := ResolveSchema(spec, schema, depth);
            var full := Full(spec, schema, if depth <= 10 then 11 - depth else 0);
            && (IsPlain(r.value) <==> full.Some? && full.value.Some?)
            && (IsPlain(r.value) ==> full == Some(r))
    decreases Budget(depth), 0, 0
  {
    hide IsDoc, Merge, StepOf, IsPlain;
    if schema.Null? {
      NullStep(spec, schema);
      NothingIsPlain();
      return;
    }
    DoneIsSchema(spec, schema);
    if depth <= MAX_DEPTH {
      match StepOf(spec, schema)
      case Done(v) =>
      case Follow(target) =>
        FollowIsDoc(spec, schema);
        PlainIffFull(spec, target, depth + 1);
      case Combine(items) =>
        CombineIsDoc(spec, schema);
        PlainItemsIffFull(spec, items, depth + 1);
        MergePlain(ResolveItems(spec, items, depth + 1).value);
    }
  }

  predicate AllPlain(subs: seq<Value>) {
    forall i :: 0 <= i < |subs| ==> IsPlain(subs[i])
  }

  predicate AllDocs(items: seq<Value>) {
    forall i :: 0 <= i < |items| ==> IsDoc(items[i])
  }

  lemma AllPlainCons(first: Value, rest: seq<Value>)
    ensures AllPlain([first] + rest) <==> IsPlain(first) && AllPlain(rest)
  {
    hide IsPlain;
    var all := [first] + rest;
    assert all[0] == first && forall i :: 0 <= i < |rest| ==> rest[i] == all[i + 1];
  }

  lemma FollowIsDoc(spec: Value, schema: Value)
    requires IsDoc(spec) && StepOf(spec, schema).Follow?
    ensures IsDoc(StepOf(spec, schema).target)
  {
    hide IsDoc;
    ResolveRefIsDoc(spec, Get(schema, "$ref").value.s);
  }

  lemma CombineIsDoc(spec: Value, schema: Value)
    requires IsDoc(schema) && StepOf(spec, schema).Combine?
    ensures AllDocs(StepOf(spec, schema).items)
  {
    hide IsDoc;
    GetIsDoc(schema, "allOf");
    ItemsAreDocs(Get(schema, "allOf").value.items);
  }

  lemma {:induction false} PlainItemsIffFull(spec: Value, items: seq<Value>, depth: nat)
    requires IsDoc(spec) && AllDocs(items) && ResolveItems(spec, items, depth).Some?
    ensures var r, full := ResolveItems(spec, items, depth), FullItems(spec, items, Budget(depth));
            && AllDocs(r.value)
            && (AllPlain(r.value) <==> full.Some? && full.value.Some?)
            && (AllPlain(r.value) ==> full == Some(r))
    decreases Budget(depth), 1, |items|
  {
    hide IsDoc, IsPlain, Full, ResolveSchema;
    if items != [] {
      PlainIffFull(spec, items[0], depth);
      ResolveIsDoc(spec, items[0], depth);
      PlainItemsIffFull(spec, items[1..], depth);
      var first, rest := ResolveSchema(spec, items[0], depth).value, ResolveItems(spec, items[1..], depth).value;
      AllPlainCons(first, rest);
    }
  }

  /** Merging dicts leaves a `$ref` or an `allOf` at the top iff one of them has it. */
  lemma MergePlain(subs: seq<Value>)
    requires AllDocs(subs) && Merge(subs).Some?
    ensures IsPlain(Merge(subs).value) <==> AllPlain(subs)
  {
    hide IsDoc, Merge;
    MergeTakesDicts(subs);
    MergeMeaning(subs, "$ref", "");
    MergeMeaning(subs, "allOf", "");
    LastOfFinds(subs, "$ref");
    LastOfFinds(subs, "allOf");
    assert AllPlain(subs) <==>
             forall i :: 0 <= i < |subs| ==> Get(subs[i], "$ref").None? && Get(subs[i], "allOf").None?;
  }

  lemma {:induction false} LastOfFinds(subs: seq<Value>, key: string)
    ensures LastOf(subs, key).None? <==> forall i :: 0 <= i < |subs| ==> Get(subs[i], key).None?
  {
    hide Get;
    if subs != [] {
      LastOfFinds(subs[1..], key);
      assert forall i :: 0 < i < |subs| ==> subs[i] == subs[1..][i - 1];
    }
  }

  /** What `resolve_schema` gives a dict: the unbounded resolution, with nothing left to resolve at
      the top, if the height plus the starting depth is at most 11, and otherwise something with a
      `$ref` or an `allOf` left. */
  lemma ResolveSchemaMeaning(spec: Value, schema: Value, depth: nat)
    requires IsDoc(spec) && IsDoc(schema) && ResolveSchema(spec, schema, depth).Some?
    ensures var r := ResolveSchema(spec, schema, depth);
            && IsDoc(r.value)
            && (IsPlain(r.value) <==> exists h: nat :: (h == 0 || h + depth <= 11) && Full(spec, schema, h) == Some(r))
            && (IsPlain(r.value) ==> ResolvesTo(spec, schema, r))
  {
    hide Full, IsDoc, IsPlain, ResolveSchema;
    ResolveIsDoc(spec, schema, depth);
    PlainIffFull(spec, schema, depth);
    var r := ResolveSchema(spec, schema, depth);
    if h: nat :| (h == 0 || h + depth <= 11) && Full(spec, schema, h) == Some(r) {
      FullGrows(spec, schema, h, Budget(depth));
    }
  }

  /** A schema on a cycle, of references, of `allOf` items or of both, always comes back with
      something left to resolve. */
  lemma CycleIsCut(spec: Value, cycle: seq<Value>, i: nat, depth: nat)
    requires IsDoc(spec) && IsCycle(spec, cycle) && i < |cycle| && IsDoc(cycle[i])
    requires ResolveSchema(spec, cycle[i], depth).Some?
    ensures !IsPlain(ResolveSchema(spec, cycle[i], depth).value)
  {
    hide IsDoc, IsCycle, IsPlain, Full, ResolveSchema;
    CycleHasNoHeight(spec, cycle, Budget(depth), i);
    PlainIffFull(spec, cycle[i], depth);
  }
}
