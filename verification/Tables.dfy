/** The property table in terms of resolved schemas and their keys: which paths it lists, in which
    order and with which flags, and when there is a table at all. */
module Tables {
  import opened Text
  import opened YamlText
  import opened Refs
  import opened Rows
  import opened YamlScalars

  // ---------------------------------------------------------------- nested objects

  /** The schema resolves to an object type with these properties, not none, and these required
      names; without `required` there are none. */
  ghost predicate IsNestedObject(spec: Value, schema: Value, props: seq<Entry>, names: seq<string>) {
    var r := ResolveSchema(spec, schema, 0);
    && r.Some? && Get(r.value, "type") == Some(Str("object"))
    && Get(r.value, "properties") == Some(Map(props)) && props != []
    && (match Get(r.value, "required")
        case None => names == []
        case Some(v) => v == Seq(seq(|names|, i requires 0 <= i < |names| => Str(names[i]))))
  }

  lemma {:induction false} StringsAre(items: seq<Value>, names: seq<string>)
    ensures Strings(items) == Some(names) <==> Seq(items) == StrValues(names)
  {
    if Strings(items) == Some(names) {
      StringsBack(items);
    }
    if Seq(items) == StrValues(names) {
      StringsOfStr(names);
    }
  }

  lemma {:induction false} StringsBack(items: seq<Value>)
    requires Strings(items).Some?
    ensures Seq(items) == StrValues(Strings(items).value)
  {
    if items != [] {
      StringsBack(items[1..]);
      var names := Strings(items).value;
      assert names[1..] == Strings(items[1..]).value;
      assert items == [items[0]] + items[1..];
      assert StrValues(names).items == [Str(names[0])] + StrValues(names[1..]).items;
    }
  }

  lemma NestedMeaning(spec: Value, schema: Value, props: seq<Entry>, names: seq<string>)
    ensures NestedObject(spec, schema) == Some((props, names)) <==> IsNestedObject(spec, schema, props, names)
  {
    hide ResolveSchema, Strings, Lookup, StepOf;
    if Has(schema, "$ref").None? {
      NoHasNoObject(spec, schema);
    }
    var r := ResolveSchema(spec, schema, 0);
    if r.Some? && Get(r.value, "required").Some? && Get(r.value, "required").value.Seq? {
      StringsAre(Get(r.value, "required").value.items, names);
    }
    StringsAre([], names);
    NoStrings();
  }

  lemma NoStrings()
    ensures Strings([]) == Some([])
  {
  }

  lemma NoHasNoObject(spec: Value, schema: Value)
    requires Has(schema, "$ref").None?
    ensures ResolveSchema(spec, schema, 0).Some? ==> Get(ResolveSchema(spec, schema, 0).value, "type").None?
  {
  }

  // ---------------------------------------------------------------- paths

  /** The path leads to a property with this schema: every step but the last goes through a nested
      object. */
  ghost predicate Declares(props: seq<Entry>, spec: Value, path: Path, schema: Value)
    decreases |path|
  {
    path != [] &&
    match Lookup(props, path[0])
    case None => false
    case Some(s) =>
      if |path| == 1 then s == schema
      else exists inner, names :: IsNestedObject(spec, s, inner, names) && Declares(inner, spec, path[1..], schema)
  }

  ghost predicate Walks(props: seq<Entry>, spec: Value, path: Path) {
    exists schema :: Declares(props, spec, path, schema)
  }

  /** The object that declares the last property of the path requires it. */
  ghost predicate IsRequired(props: seq<Entry>, required: seq<string>, spec: Value, path: Path)
    decreases |path|
  {
    path != [] &&
    if |path| == 1 then path[0] in required
    else match Lookup(props, path[0])
      case None => false
      case Some(s) =>
        exists inner, names :: IsNestedObject(spec, s, inner, names) && IsRequired(inner, names, spec, path[1..])
  }

  lemma {:induction false} WalksIsNames(props: seq<Entry>, spec: Value, path: Path)
    ensures Names(props, spec, path) <==> Walks(props, spec, path)
    decreases |path|
  {
    hide IsNestedObject, NestedObject, Lookup;
    if path != [] && Lookup(props, path[0]).Some? {
      var s := Lookup(props, path[0]).value;
      if |path| == 1 {
        assert Declares(props, spec, path, s);
      } else {
        forall inner, names | IsNestedObject(spec, s, inner, names)
          ensures NestedProps(spec, s) == Some(inner)
          ensures Names(inner, spec, path[1..]) <==> Walks(inner, spec, path[1..])
        {
          NestedMeaning(spec, s, inner, names);
          WalksIsNames(inner, spec, path[1..]);
        }
        if Walks(props, spec, path) {
          var schema :| Declares(props, spec, path, schema);
          var inner, names :| IsNestedObject(spec, s, inner, names) && Declares(inner, spec, path[1..], schema);
          assert Walks(inner, spec, path[1..]);
        }
        if Names(props, spec, path) {
          var (inner, names) := NestedObject(spec, s).value;
          NestedMeaning(spec, s, inner, names);
          var schema :| Declares(inner, spec, path[1..], schema);
          assert Declares(props, spec, path, schema);
        }
      }
    }
  }

  lemma {:induction false} FlagIsRequired(props: seq<Entry>, required: seq<string>, spec: Value, path: Path)
    ensures RequiredAt(props, required, spec, path) <==> IsRequired(props, required, spec, path)
    decreases |path|
  {
    hide IsNestedObject, NestedObject, Lookup;
    if |path| > 1 && Lookup(props, path[0]).Some? {
      var s := Lookup(props, path[0]).value;
      forall inner, names | IsNestedObject(spec, s, inner, names)
        ensures NestedObject(spec, s) == Some((inner, names))
        ensures RequiredAt(inner, names, spec, path[1..]) <==> IsRequired(inner, names, spec, path[1..])
      {
        NestedMeaning(spec, s, inner, names);
        FlagIsRequired(inner, names, spec, path[1..]);
      }
      if NestedObject(spec, s).Some? {
        var (inner, names) := NestedObject(spec, s).value;
        NestedMeaning(spec, s, inner, names);
      }
    }
  }

  // ---------------------------------------------------------------- the order of the rows

  function IndexOf(props: seq<Entry>, key: string): nat {
    if props == [] || props[0].key == key then 0 else 1 + IndexOf(props[1..], key)
  }

  /** Pre-order: p comes before q if it is a parent of q, or if at the first name in which they differ
      its property is declared earlier. */
  ghost predicate Before(props: seq<Entry>, spec: Value, p: Path, q: Path)
    decreases |p|
  {
    && p != [] && q != []
    && (p[0] != q[0] ==> IndexOf(props, p[0]) < IndexOf(props, q[0]))
    && (p[0] == q[0] ==> |q| > 1)
    && (p[0] == q[0] && |p| > 1 ==>
          && Lookup(props, p[0]).Some?
          && exists inner, names :: IsNestedObject(spec, Lookup(props, p[0]).value, inner, names)
                                    && Before(inner, spec, p[1..], q[1..]))
  }

  ghost predicate InOrder(props: seq<Entry>, spec: Value, paths: seq<Path>) {
    forall i, j {:trigger paths[i], paths[j]} :: 0 <= i < j < |paths| ==> Before(props, spec, paths[i], paths[j])
  }

  lemma BeforeAfterFirst(props: seq<Entry>, spec: Value, p: Path, q: Path)
    requires props != [] && Lookup(props[1..], props[0].key).None?
    requires StartsAt(props[1..], p) && StartsAt(props[1..], q) && Before(props[1..], spec, p, q)
    ensures Before(props, spec, p, q)
  {
    hide IsNestedObject;
  }

  lemma BeforeBelow(props: seq<Entry>, spec: Value, inner: seq<Entry>, names: seq<string>, p: Path, q: Path)
    requires props != [] && IsNestedObject(spec, props[0].val, inner, names) && Before(inner, spec, p, q)
    ensures Before(props, spec, [props[0].key] + p, [props[0].key] + q)
  {
    hide IsNestedObject;
    var p', q' := [props[0].key] + p, [props[0].key] + q;
    assert p'[1..] == p && q'[1..] == q;
    assert Lookup(props, p'[0]) == Some(props[0].val);
    assert Before(inner, spec, p'[1..], q'[1..]);
  }

  lemma {:induction false} PathsInOrder(props: seq<Entry>, spec: Value, depth: nat, maxDepth: nat)
    requires IsDoc(spec) && IsDoc(Map(props))
    ensures InOrder(props, spec, PathsOf(props, spec, depth, maxDepth))
    decreases maxDepth - depth, |props|
  {
    hide NestedObject, IsDoc, Lookup, IsNestedObject, Before;
    if props != [] {
      var e := props[0];
      var below := PathsBelow(e.val, spec, depth, maxDepth);
      var rest := PathsOf(props[1..], spec, depth, maxDepth);
      var paths := Tree(e.key, below, rest);
      DocSplit(props);
      BelowInOrder(props, spec, depth, maxDepth);
      PathsInOrder(props[1..], spec, depth, maxDepth);
      KeysOfPaths(props[1..], spec, depth, maxDepth);
      forall i, j | 0 <= i < j < |paths| ensures Before(props, spec, paths[i], paths[j]) {
        PairInOrder(props, spec, below, rest, i, j);
      }
    }
  }

  lemma PairInOrder(props: seq<Entry>, spec: Value, below: seq<Path>, rest: seq<Path>, i: nat, j: nat)
    requires props != [] && Lookup(props[1..], props[0].key).None? && i < j < 1 + |below| + |rest|
    requires (forall k :: 0 <= k < |below| ==> below[k] != []) && InOrder(props, spec, Under(props[0].key, below))
    requires (forall p :: p in rest ==> StartsAt(props[1..], p)) && InOrder(props[1..], spec, rest)
    ensures var paths := Tree(props[0].key, below, rest); Before(props, spec, paths[i], paths[j])
  {
    hide Lookup, Before, StartsAt;
    var key := props[0].key;
    TreeAt(key, below, rest, i);
    TreeAt(key, below, rest, j);
    var under := Under(key, below);
    if j <= |below| {
      assert under[j - 1] == [key] + below[j - 1];
      if i == 0 {
        ParentBefore(props, spec, below[j - 1]);
      } else {
        assert under[i - 1] == [key] + below[i - 1];
      }
    } else {
      var q := rest[j - 1 - |below|];
      assert q in rest;
      if i <= |below| {
        FirstBefore(props, spec, if i == 0 then [key] else [key] + below[i - 1], q);
      } else {
        var p := rest[i - 1 - |below|];
        assert p in rest && Before(props[1..], spec, p, q);
        BeforeAfterFirst(props, spec, p, q);
      }
    }
  }

  lemma ParentBefore(props: seq<Entry>, spec: Value, q: Path)
    requires props != [] && q != []
    ensures Before(props, spec, [props[0].key], [props[0].key] + q)
  {
    hide IsNestedObject;
  }

  lemma FirstBefore(props: seq<Entry>, spec: Value, p: Path, q: Path)
    requires props != [] && p != [] && p[0] == props[0].key
    requires Lookup(props[1..], props[0].key).None? && StartsAt(props[1..], q)
    ensures Before(props, spec, p, q)
  {
    hide IsNestedObject;
  }

  lemma {:induction false} BelowInOrder(props: seq<Entry>, spec: Value, depth: nat, maxDepth: nat)
    requires props != [] && IsDoc(spec) && IsDoc(props[0].val)
    ensures var below := PathsBelow(props[0].val, spec, depth, maxDepth);
            && (forall i :: 0 <= i < |below| ==> below[i] != [])
            && InOrder(props, spec, Under(props[0].key, below))
    decreases maxDepth - depth, 0
  {
    hide NestedObject, IsDoc, Lookup, IsNestedObject, Before;
    var schema := props[0].val;
    if NestedObject(spec, schema).Some? && depth < maxDepth {
      var (inner, names) := NestedObject(spec, schema).value;
      NestedMeaning(spec, schema, inner, names);
      NestedIsDoc(spec, schema);
      PathsInOrder(inner, spec, depth + 1, maxDepth);
      KeysOfPaths(inner, spec, depth + 1, maxDepth);
      var below := PathsOf(inner, spec, depth + 1, maxDepth);
      assert forall i :: 0 <= i < |below| ==> below[i] in below && StartsAt(inner, below[i]);
      var under := Under(props[0].key, below);
      forall i, j | 0 <= i < j < |under| ensures Before(props, spec, under[i], under[j]) {
        assert under[i] == [props[0].key] + below[i] && under[j] == [props[0].key] + below[j];
        BeforeBelow(props, spec, inner, names, below[i], below[j]);
      }
    }
  }

  // ---------------------------------------------------------------- when there is a table

  /** The values that Python takes for false. */
  lemma FalsyMeaning(v: Value)
    ensures IsFalsy(v) <==>
              || v == Null || v == Bool(false) || v == Int(0) || v == Str("") || v == Seq([]) || v == Map([])
              || (v.Float? && IsZeroText(v.text))
  {
    hide IsZeroText;
  }

  /** A float is zero exactly when its digits before the exponent are. */
  lemma ZeroMeaning(t: string, sign: string, whole: string, fraction: string, e: string)
    requires IsFloatOf(t, sign, whole, fraction, e)
    ensures IsZeroText(t) <==> ValueOf(whole) == 0 && ValueOf(fraction) == 0
  {
    hide IsGrouped, IsExponent, DropSign, ExponentAt, ValueOf;
    var m := whole + "." + fraction;
    FloatBody(t, sign, whole, fraction, e);
    DigitsOf(whole);
    DigitsOf(fraction);
    assert forall i :: 0 <= i < |m| ==> (m + e)[i] == m[i];
    assert forall i :: 0 <= i < |whole| ==> m[i] == whole[i];
    assert m[|whole|] == '.' && forall i :: 0 <= i < |fraction| ==> m[|whole| + 1 + i] == fraction[i];
  }

  lemma DigitsOf(s: string)
    requires MayBeGrouped(s)
    ensures ValueOf(s) == 0 <==> forall i :: 0 <= i < |s| ==> !('1' <= s[i] <= '9')
  {
    hide IsGrouped, ValueOf;
    if s != "" {
      GroupedStart(s);
    }
    ZeroDigits(s);
  }

  /** A property is listed without an exception: its schema can be asked for `$ref` and resolves to a
      dict; and where it is expanded, properties of an object type, unless false, are a dict, and
      `required` is a list of strings if it is there. */
  ghost predicate IsListable(spec: Value, schema: Value, expand: bool) {
    var r := ResolveSchema(spec, schema, 0);
    && (schema.Map? || schema.Seq? || schema.Str?) && r.Some? && r.value.Map?
    && (expand && Get(r.value, "type") == Some(Str("object"))
        && Get(r.value, "properties").Some? && !IsFalsy(Get(r.value, "properties").value) ==>
          && Get(r.value, "properties").value.Map?
          && (Get(r.value, "required").None? || exists names :: Get(r.value, "required") == Some(StrValues(names))))
  }

  lemma ListableMeaning(spec: Value, schema: Value, expand: bool)
    ensures IsListable(spec, schema, expand) <==>
              && Resolved(spec, schema).Some? && Resolved(spec, schema).value.Map?
              && (expand ==> Nested(Resolved(spec, schema).value).Some?)
  {
    hide ResolveSchema, Strings, IsFalsy, Lookup;
    assert IsFalsy(Null) by { FalsyMeaning(Null); }
    var r := ResolveSchema(spec, schema, 0);
    if r.Some? && Get(r.value, "required").Some? {
      RequiredMeaning(Get(r.value, "required").value);
    }
    NoStrings();
  }

  lemma RequiredMeaning(v: Value)
    ensures v.Seq? && Strings(v.items).Some? <==> exists names :: v == StrValues(names)
  {
    if v.Seq? && Strings(v.items).Some? {
      StringsAre(v.items, Strings(v.items).value);
    }
    if names :| v == StrValues(names) {
      StringsAre(v.items, names);
    }
  }

  /** Every property within the bound is listable; those above the bound are expanded. */
  ghost predicate AllListable(props: seq<Entry>, spec: Value, depth: nat, maxDepth: nat) {
    forall path, schema ::
      Declares(props, spec, path, schema) && |path| <= 1 + Left(depth, maxDepth) ==>
        IsListable(spec, schema, depth + |path| <= maxDepth)
  }

  function Left(depth: nat, maxDepth: nat): nat {
    if depth < maxDepth then maxDepth - depth else 0
  }

  /** There is a table, and no exception, exactly when every property within the bound is listable. */
  lemma {:induction false} TableExists(
      props: seq<Entry>, required: seq<string>, spec: Value, depth: nat, maxDepth: nat, prefix: string)
    requires IsDoc(spec) && IsDoc(Map(props))
    ensures CollectRows(props, required, spec, depth, maxDepth, prefix).Some?
       <==> AllListable(props, spec, depth, maxDepth)
    decreases maxDepth - depth, |props|
  {
    hide Resolved, Nested, IsDoc, AllListable, Below;
    if props == [] {
      NothingListed(spec, depth, maxDepth);
    } else {
      var e := props[0];
      DocSplit(props);
      ListableCons(props, spec, depth, maxDepth);
      BelowExists(spec, e.val, depth, maxDepth, prefix + e.key);
      TableExists(props[1..], required, spec, depth, maxDepth, prefix);
    }
  }

  lemma NothingListed(spec: Value, depth: nat, maxDepth: nat)
    ensures AllListable([], spec, depth, maxDepth)
  {
    hide IsListable;
  }

  ghost predicate BelowListable(schema: Value, spec: Value, depth: nat, maxDepth: nat) {
    && IsListable(spec, schema, depth < maxDepth)
    && forall inner, names :: depth < maxDepth && IsNestedObject(spec, schema, inner, names) ==>
         AllListable(inner, spec, depth + 1, maxDepth)
  }

  lemma ListableCons(props: seq<Entry>, spec: Value, depth: nat, maxDepth: nat)
    requires props != [] && Lookup(props[1..], props[0].key).None?
    ensures AllListable(props, spec, depth, maxDepth) <==>
              BelowListable(props[0].val, spec, depth, maxDepth) && AllListable(props[1..], spec, depth, maxDepth)
  {
    hide IsListable, IsNestedObject, Lookup;
    var e, rest := props[0], props[1..];
    if AllListable(props, spec, depth, maxDepth) {
      assert Declares(props, spec, [e.key], e.val) by { HeadDeclares(props, spec); }
      forall inner, names | depth < maxDepth && IsNestedObject(spec, e.val, inner, names)
        ensures AllListable(inner, spec, depth + 1, maxDepth)
      {
        forall path, schema | Declares(inner, spec, path, schema) && |path| <= 1 + Left(depth + 1, maxDepth)
          ensures IsListable(spec, schema, depth + 1 + |path| <= maxDepth)
        {
          BelowDeclares(props, spec, inner, names, path, schema);
          assert |[e.key] + path| == 1 + |path|;
        }
      }
      forall path, schema | Declares(rest, spec, path, schema) && |path| <= 1 + Left(depth, maxDepth)
        ensures IsListable(spec, schema, depth + |path| <= maxDepth)
      {
        RestDeclares(props, spec, path, schema);
      }
    }
    if BelowListable(e.val, spec, depth, maxDepth) && AllListable(rest, spec, depth, maxDepth) {
      forall path, schema | Declares(props, spec, path, schema) && |path| <= 1 + Left(depth, maxDepth)
        ensures IsListable(spec, schema, depth + |path| <= maxDepth)
      {
        WhoDeclares(props, spec, path, schema);
        if path[0] == e.key && |path| > 1 {
          var inner, names :| IsNestedObject(spec, e.val, inner, names) && Declares(inner, spec, path[1..], schema);
          assert AllListable(inner, spec, depth + 1, maxDepth);
        }
      }
    }
  }

  lemma HeadDeclares(props: seq<Entry>, spec: Value)
    requires props != []
    ensures Declares(props, spec, [props[0].key], props[0].val)
  {
    hide IsNestedObject;
  }

  lemma BelowDeclares(
      props: seq<Entry>, spec: Value, inner: seq<Entry>, names: seq<string>, path: Path, schema: Value)
    requires props != [] && IsNestedObject(spec, props[0].val, inner, names) && Declares(inner, spec, path, schema)
    ensures Declares(props, spec, [props[0].key] + path, schema)
  {
    hide IsNestedObject;
    assert ([props[0].key] + path)[1..] == path;
  }

  lemma RestDeclares(props: seq<Entry>, spec: Value, path: Path, schema: Value)
    requires props != [] && Lookup(props[1..], props[0].key).None? && Declares(props[1..], spec, path, schema)
    ensures Declares(props, spec, path, schema)
  {
    hide IsNestedObject;
  }

  lemma WhoDeclares(props: seq<Entry>, spec: Value, path: Path, schema: Value)
    requires props != [] && Declares(props, spec, path, schema)
    ensures path[0] != props[0].key ==> Declares(props[1..], spec, path, schema)
    ensures path[0] == props[0].key ==>
              if |path| == 1 then schema == props[0].val
              else exists inner, names :: IsNestedObject(spec, props[0].val, inner, names)
                                          && Declares(inner, spec, path[1..], schema)
  {
    hide IsNestedObject;
  }

  lemma {:induction false} BelowExists(spec: Value, schema: Value, depth: nat, maxDepth: nat, name: string)
    requires IsDoc(spec) && IsDoc(schema)
    ensures Resolved(spec, schema).Some? && Below(Resolved(spec, schema).value, spec, depth, maxDepth, name).Some?
       <==> BelowListable(schema, spec, depth, maxDepth)
    decreases maxDepth - depth, 0
  {
    hide Resolved, Nested, IsDoc, AllListable, IsNestedObject, IsListable;
    ListableMeaning(spec, schema, depth < maxDepth);
    if NestedObject(spec, schema).Some? && depth < maxDepth {
      var (inner, names) := NestedObject(spec, schema).value;
      NestedIsDoc(spec, schema);
      TableExists(inner, names, spec, depth + 1, maxDepth, name + ".");
    }
    forall inner, names | IsNestedObject(spec, schema, inner, names)
      ensures NestedObject(spec, schema) == Some((inner, names))
    {
      NestedMeaning(spec, schema, inner, names);
    }
    if NestedObject(spec, schema).Some? {
      NestedMeaning(spec, schema, NestedObject(spec, schema).value.0, NestedObject(spec, schema).value.1);
    }
  }

  // ---------------------------------------------------------------- the table

  /** The table of a dict of properties: one row for each path that walks through nested objects at
      most maxDepth - depth levels deep and for no other, in pre-order and in the order in which the
      properties are declared, with its dotted name and the flag that its declaring object gives it;
      and with dot-free names no two rows have the same name. */
  lemma TableMeaning(props: seq<Entry>, required: seq<string>, spec: Value, depth: nat, maxDepth: nat, prefix: string)
    requires IsDoc(spec) && IsDoc(Map(props)) && CollectRows(props, required, spec, depth, maxDepth, prefix).Some?
    ensures var rows := CollectRows(props, required, spec, depth, maxDepth, prefix).value;
            exists paths: seq<Path> ::
              && |rows| == |paths| && Distinct(paths)
              && (forall p :: p in paths <==> Walks(props, spec, p) && |p| <= 1 + Left(depth, maxDepth))
              && InOrder(props, spec, paths)
              && (forall i :: 0 <= i < |rows| ==>
                    rows[i] == Row(prefix + Join(paths[i], "."), IsRequired(props, required, spec, paths[i])))
              && ((forall i :: 0 <= i < |paths| ==> DotFree(paths[i])) ==>
                    forall i, j :: 0 <= i < j < |rows| ==> rows[i].name != rows[j].name)
  {
    hide IsDoc, PathsOf, CollectRows, Names, Walks, RequiredAt, IsRequired, Join, InOrder, ParentsFirst, DotFree;
    NestedTable(props, required, spec, depth, maxDepth, prefix);
    PathsInOrder(props, spec, depth, maxDepth);
    var rows := CollectRows(props, required, spec, depth, maxDepth, prefix).value;
    var paths := PathsOf(props, spec, depth, maxDepth);
    forall p ensures p in paths <==> Walks(props, spec, p) && |p| <= 1 + Left(depth, maxDepth) {
      WalksIsNames(props, spec, p);
    }
    forall i | 0 <= i < |rows|
      ensures rows[i] == Row(prefix + Join(paths[i], "."), IsRequired(props, required, spec, paths[i]))
    {
      FlagIsRequired(props, required, spec, paths[i]);
    }
  }
}
