/** The property table: one row per property, nested object properties expanded in dot notation
    down to a maximal depth. */
module Rows {
  import opened Text
  import opened YamlText
  import opened Refs

  /** The columns that do not depend on formatting. */
  datatype Row = Row(name: string, required: bool)

  /** The text of a float that is zero: no digit before the exponent is another one. */
  predicate IsZeroText(text: string) {
    var body := DropSign(text);
    forall i :: 0 <= i < ExponentAt(body) ==> !('1' <= body[i] <= '9')
  }

  predicate IsFalsy(v: Value) {
    match v
    case Null => true
    case Bool(b) => !b
    case Int(n) => n == 0
    case Float(text) => IsZeroText(text)
    case Str(s) => s == ""
    case Seq(items) => items == []
    case Map(entries) => entries == []
  }

  /** The nested properties a row is expanded into: those of a resolved object schema, with its
      required names. Some(None): nothing to expand; None: Python raises. */
  function Nested(resolved: Value): Option<Option<(seq<Entry>, seq<string>)>>
    requires resolved.Map?
  {
    var props := Get(resolved, "properties").GetOr(Null);
    if Get(resolved, "type") != Some(Str("object")) || IsFalsy(props) then Some(None)
    else if !props.Map? then None
    else
      var required := Get(resolved, "required").GetOr(Seq([]));
      if !required.Seq? || Strings(required.items).None? then None
      else Some(Some((props.entries, Strings(required.items).value)))
  }

  function Resolved(spec: Value, schema: Value): Option<Value> {
    match Has(schema, "$ref")
    case None => None
    case Some(_) => ResolveSchema(spec, schema, 0)
  }

  /** The rows of props; paths[i] below is the property path of row i. */
  function CollectRows(props: seq<Entry>, required: seq<string>, spec: Value, depth: nat, maxDepth: nat, prefix: string)
    : Option<seq<Row>>
    decreases maxDepth - depth, |props|
  {
    if props == [] then Some([])
    else
      var e := props[0];
      var name := prefix + e.key;
      match Resolved(spec, e.val)
      case None => None
      case Some(resolved) =>
        match Below(resolved, spec, depth, maxDepth, name)
        case None => None
        case Some(inner) =>
          match CollectRows(props[1..], required, spec, depth, maxDepth, prefix)
          case None => None
          case Some(rest) => Some([Row(name, e.key in required)] + inner + rest)
  }

  function Below(resolved: Value, spec: Value, depth: nat, maxDepth: nat, name: string): Option<seq<Row>>
    decreases maxDepth - depth, 0
  {
    if !resolved.Map? then None
    else if depth >= maxDepth then Some([])
    else match Nested(resolved)
      case None => None
      case Some(None) => Some([])
      case Some(Some((props, names))) => CollectRows(props, names, spec, depth + 1, maxDepth, name + ".")
  }

  class RowTable {
    var rows: seq<Row>

    constructor ()
      ensures rows == []
    {
      rows := [];
    }

    /** Appends to the shared list; false when Python raises, which leaves the list unspecified. */
    method Collect(props: seq<Entry>, required: seq<string>, spec: Value, depth: nat, maxDepth: nat, prefix: string)
      returns (ok: bool)
      modifies this
      ensures ok <==> CollectRows(props, required, spec, depth, maxDepth, prefix).Some?
      ensures ok ==> rows == old(rows) + CollectRows(props, required, spec, depth, maxDepth, prefix).value
      decreases maxDepth - depth, 1
    {
      hide Resolved, Nested, Below;
      for i := 0 to |props|
        invariant var left := CollectRows(props[i..], required, spec, depth, maxDepth, prefix);
                  var all := CollectRows(props, required, spec, depth, maxDepth, prefix);
                  && (left.Some? <==> all.Some?)
                  && (all.Some? ==> old(rows) + all.value == rows + left.value)
      {
        assert props[i..][1..] == props[i + 1..];
        var e := props[i];
        var name := prefix + e.key;
        var resolved := Resolved(spec, e.val);
        if resolved.None? {
          return false;
        }
        rows := rows + [Row(name, e.key in required)];
        ghost var before := rows;
        var inner := CollectBelow(resolved.value, spec, depth, maxDepth, name);
        if !inner {
          return false;
        }
      }
      ok := true;
    }

    /** Expands nested object properties with dot notation. */
    method CollectBelow(resolved: Value, spec: Value, depth: nat, maxDepth: nat, name: string) returns (ok: bool)
      modifies this
      ensures ok <==> Below(resolved, spec, depth, maxDepth, name).Some?
      ensures ok ==> rows == old(rows) + Below(resolved, spec, depth, maxDepth, name).value
      decreases maxDepth - depth, 0
    {
      if !resolved.Map? {
        return false;
      }
      if depth >= maxDepth {
        return true;
      }
      match Nested(resolved) {
        case None =>
          ok := false;
        case Some(None) =>
          ok := true;
        case Some(Some((props, names))) =>
          ok := Collect(props, names, spec, depth + 1, maxDepth, name + ".");
      }
    }
  }

  // ---------------------------------------------------------------- paths

  type Path = seq<string>

  /** The property paths in the order of the rows. */
  function PathsOf(props: seq<Entry>, spec: Value, depth: nat, maxDepth: nat): seq<Path>
    decreases maxDepth - depth, |props|
  {
    if props == [] then []
    else
      var e := props[0];
      [[e.key]] + Under(e.key, PathsBelow(e.val, spec, depth, maxDepth)) + PathsOf(props[1..], spec, depth, maxDepth)
  }

  function PathsBelow(schema: Value, spec: Value, depth: nat, maxDepth: nat): seq<Path>
    decreases maxDepth - depth, 0
  {
    match NestedProps(spec, schema)
    case None => []
    case Some(props) => if depth < maxDepth then PathsOf(props, spec, depth + 1, maxDepth) else []
  }

  /** The properties and required names of the object that a property's schema resolves to. */
  function NestedObject(spec: Value, schema: Value): Option<(seq<Entry>, seq<string>)> {
    match Resolved(spec, schema)
    case None => None
    case Some(resolved) => if resolved.Map? then Nested(resolved).GetOr(None) else None
  }

  function NestedProps(spec: Value, schema: Value): Option<seq<Entry>> {
    match NestedObject(spec, schema)
    case None => None
    case Some((props, _)) => Some(props)
  }

  /** Whether the last name of the path is required by the object that declares it. */
  predicate RequiredAt(props: seq<Entry>, required: seq<string>, spec: Value, path: Path)
    decreases |path|
  {
    path != [] &&
    if |path| == 1 then path[0] in required
    else match Lookup(props, path[0])
      case None => false
      case Some(schema) =>
        match NestedObject(spec, schema)
        case None => false
        case Some((inner, names)) => RequiredAt(inner, names, spec, path[1..])
  }

  function Under(key: string, paths: seq<Path>): (r: seq<Path>)
    ensures |r| == |paths|
  {
    seq(|paths|, i requires 0 <= i < |paths| => [key] + paths[i])
  }

  /** Walking the path through resolved schemas: every step but the last enters a nested object. */
  predicate Names(props: seq<Entry>, spec: Value, path: Path)
    decreases |path|
  {
    path != [] &&
    match Lookup(props, path[0])
    case None => false
    case Some(schema) =>
      |path| == 1 || (NestedProps(spec, schema).Some? && Names(NestedProps(spec, schema).value, spec, path[1..]))
  }

  predicate Distinct(paths: seq<Path>) {
    forall i, j :: 0 <= i < j < |paths| ==> paths[i] != paths[j]
  }

  /** A nested path comes after the path of its parent. */
  predicate ParentsFirst(paths: seq<Path>) {
    forall j :: 0 <= j < |paths| && |paths[j]| > 1 ==> paths[j][..|paths[j]| - 1] in paths[..j]
  }

  /** Every row's name is the prefix and its dotted path. */
  lemma {:induction false} RowNames(
      props: seq<Entry>, required: seq<string>, spec: Value, depth: nat, maxDepth: nat, prefix: string)
    requires CollectRows(props, required, spec, depth, maxDepth, prefix).Some?
    ensures var rows := CollectRows(props, required, spec, depth, maxDepth, prefix).value;
            var paths := PathsOf(props, spec, depth, maxDepth);
            |rows| == |paths| && forall i :: 0 <= i < |rows| ==>
              paths[i] != [] && rows[i].name == prefix + Join(paths[i], ".")
    decreases maxDepth - depth, |props|
  {
    hide Resolved, Nested, Join;
    if props != [] {
      var e := props[0];
      var name := prefix + e.key;
      var resolved := Resolved(spec, e.val).value;
      var inner := Below(resolved, spec, depth, maxDepth, name).value;
      var innerPaths := PathsBelow(e.val, spec, depth, maxDepth);
      assert |inner| == |innerPaths| &&
             forall i :: 0 <= i < |inner| ==>
               innerPaths[i] != [] && inner[i].name == name + "." + Join(innerPaths[i], ".") by {
        if depth < maxDepth && Nested(resolved).value.Some? {
          var n := Nested(resolved);
          RowNames(n.value.value.0, n.value.value.1, spec, depth + 1, maxDepth, name + ".");
        }
      }
      RowNames(props[1..], required, spec, depth, maxDepth, prefix);
      var rest := CollectRows(props[1..], required, spec, depth, maxDepth, prefix).value;
      var restPaths := PathsOf(props[1..], spec, depth, maxDepth);
      var rows := [Row(name, e.key in required)] + inner + rest;
      var paths := [[e.key]] + Under(e.key, innerPaths) + restPaths;
      forall i | 0 <= i < |rows| ensures paths[i] != [] && rows[i].name == prefix + Join(paths[i], ".") {
        if i == 0 {
          JoinOne(e.key, ".");
        } else if i <= |inner| {
          var p := innerPaths[i - 1];
          assert paths[i] == [e.key] + p && rows[i] == inner[i - 1];
          JoinCons(e.key, p, ".");
          Concat(prefix, e.key + ".", Join(p, "."));
          Concat(prefix, e.key, ".");
        } else {
          assert paths[i] == restPaths[i - 1 - |inner|] && rows[i] == rest[i - 1 - |inner|];
        }
      }
    }
  }

  lemma NoRows(required: seq<string>, spec: Value, depth: nat, maxDepth: nat, prefix: string)
    ensures CollectRows([], required, spec, depth, maxDepth, prefix) == Some([])
            && PathsOf([], spec, depth, maxDepth) == []
  {
  }

  lemma RowsUnfold(props: seq<Entry>, required: seq<string>, spec: Value, depth: nat, maxDepth: nat, prefix: string)
    requires props != [] && CollectRows(props, required, spec, depth, maxDepth, prefix).Some?
    ensures Resolved(spec, props[0].val).Some?
    ensures var e := props[0];
            var name := prefix + e.key;
            var inner := Below(Resolved(spec, e.val).value, spec, depth, maxDepth, name);
            var rest := CollectRows(props[1..], required, spec, depth, maxDepth, prefix);
            && inner.Some? && rest.Some?
            && CollectRows(props, required, spec, depth, maxDepth, prefix).value
               == [Row(name, e.key in required)] + inner.value + rest.value
            && PathsOf(props, spec, depth, maxDepth)
               == Tree(e.key, PathsBelow(e.val, spec, depth, maxDepth), PathsOf(props[1..], spec, depth, maxDepth))
  {
    hide Resolved, Below, PathsBelow;
  }

  /** Every row's flag is what the declaring object says of its property. */
  lemma {:induction false} RowFlags(
      props: seq<Entry>, required: seq<string>, spec: Value, depth: nat, maxDepth: nat, prefix: string)
    requires IsDoc(spec) && IsDoc(Map(props)) && CollectRows(props, required, spec, depth, maxDepth, prefix).Some?
    ensures var rows := CollectRows(props, required, spec, depth, maxDepth, prefix).value;
            var paths := PathsOf(props, spec, depth, maxDepth);
            |rows| == |paths| && forall i :: 0 <= i < |rows| ==>
              rows[i].required == RequiredAt(props, required, spec, paths[i])
    decreases maxDepth - depth, |props|
  {
    hide Resolved, Join, IsDoc, Lookup, DistinctKeys, RequiredAt, Below, PathsBelow, NestedObject, CollectRows,
         PathsOf, Tree;
    if props == [] {
      NoRows(required, spec, depth, maxDepth, prefix);
    } else {
      var e := props[0];
      var name := prefix + e.key;
      RowsUnfold(props, required, spec, depth, maxDepth, prefix);
      var resolved := Resolved(spec, e.val).value;
      var inner := Below(resolved, spec, depth, maxDepth, name).value;
      var below := PathsBelow(e.val, spec, depth, maxDepth);
      DocSplit(props);
      InnerFlags(spec, e.val, depth, maxDepth, name);
      RowFlags(props[1..], required, spec, depth, maxDepth, prefix);
      KeysOfPaths(props[1..], spec, depth, maxDepth);
      var rest := CollectRows(props[1..], required, spec, depth, maxDepth, prefix).value;
      var restPaths := PathsOf(props[1..], spec, depth, maxDepth);
      var paths := Tree(e.key, below, restPaths);
      var rows := [Row(name, e.key in required)] + inner + rest;
      TreeSize(e.key, below, restPaths);
      forall i | 0 <= i < |rows| ensures rows[i].required == RequiredAt(props, required, spec, paths[i]) {
        TreeAt(e.key, below, restPaths, i);
        if i == 0 {
          FlagHere(props, required, spec, e.key);
        } else if i <= |inner| {
          assert rows[i] == inner[i - 1] && below[i - 1] != [];
          FlagBelow(props, required, spec, below[i - 1]);
        } else {
          var k := i - 1 - |inner|;
          assert rows[i] == rest[k] && restPaths[k] in restPaths;
          FlagAfter(props, required, spec, restPaths[k]);
        }
      }
    }
  }

  lemma {:induction false} InnerFlags(spec: Value, schema: Value, depth: nat, maxDepth: nat, name: string)
    requires IsDoc(spec) && IsDoc(schema) && Resolved(spec, schema).Some?
    requires Below(Resolved(spec, schema).value, spec, depth, maxDepth, name).Some?
    ensures var inner := Below(Resolved(spec, schema).value, spec, depth, maxDepth, name).value;
            var below := PathsBelow(schema, spec, depth, maxDepth);
            var obj := NestedObject(spec, schema);
            && |inner| == |below| && (inner != [] ==> obj.Some?)
            && forall i :: 0 <= i < |inner| ==>
                 below[i] != [] && inner[i].required == RequiredAt(obj.value.0, obj.value.1, spec, below[i])
    decreases maxDepth - depth, 0
  {
    hide Resolved, IsDoc, RequiredAt;
    var obj := NestedObject(spec, schema);
    if obj.Some? && depth < maxDepth {
      NestedIsDoc(spec, schema);
      RowFlags(obj.value.0, obj.value.1, spec, depth + 1, maxDepth, name + ".");
      var below := PathsBelow(schema, spec, depth, maxDepth);
      KeysOfPaths(obj.value.0, spec, depth + 1, maxDepth);
      assert forall i :: 0 <= i < |below| ==> below[i] in below && StartsAt(obj.value.0, below[i]);
    }
  }

  lemma FlagHere(props: seq<Entry>, required: seq<string>, spec: Value, key: string)
    ensures RequiredAt(props, required, spec, [key]) <==> key in required
  {
  }

  lemma FlagBelow(props: seq<Entry>, required: seq<string>, spec: Value, path: Path)
    requires props != [] && NestedObject(spec, props[0].val).Some? && path != []
    ensures var (inner, names) := NestedObject(spec, props[0].val).value;
            RequiredAt(props, required, spec, [props[0].key] + path) <==> RequiredAt(inner, names, spec, path)
  {
    hide NestedObject;
    assert ([props[0].key] + path)[1..] == path;
  }

  lemma FlagAfter(props: seq<Entry>, required: seq<string>, spec: Value, path: Path)
    requires props != [] && Lookup(props[1..], props[0].key).None? && StartsAt(props[1..], path)
    ensures RequiredAt(props, required, spec, path) <==> RequiredAt(props[1..], required, spec, path)
  {
    hide NestedObject;
  }

  /** The rows of one property, then the others. */
  function Tree(key: string, below: seq<Path>, rest: seq<Path>): seq<Path> {
    [[key]] + Under(key, below) + rest
  }

  lemma TreeAt(key: string, below: seq<Path>, rest: seq<Path>, i: nat)
    requires i < 1 + |below| + |rest|
    ensures Tree(key, below, rest)[i]
         == if i == 0 then [key] else if i <= |below| then [key] + below[i - 1] else rest[i - 1 - |below|]
  {
  }

  predicate StartsAt(props: seq<Entry>, path: Path) {
    path != [] && Lookup(props, path[0]).Some?
  }

  lemma {:induction false} KeysOfPaths(props: seq<Entry>, spec: Value, depth: nat, maxDepth: nat)
    ensures forall p :: p in PathsOf(props, spec, depth, maxDepth) ==> StartsAt(props, p)
    decreases |props|
  {
    hide PathsBelow;
    if props != [] {
      KeysOfPaths(props[1..], spec, depth, maxDepth);
      var below, rest := PathsBelow(props[0].val, spec, depth, maxDepth), PathsOf(props[1..], spec, depth, maxDepth);
      forall p | p in Tree(props[0].key, below, rest) ensures StartsAt(props, p) {
        assert p in rest ==> StartsAt(props[1..], p);
      }
    }
  }

  lemma {:induction false} PathsAreDistinct(props: seq<Entry>, spec: Value, depth: nat, maxDepth: nat)
    requires IsDoc(spec) && IsDoc(Map(props))
    ensures Distinct(PathsOf(props, spec, depth, maxDepth)) && ParentsFirst(PathsOf(props, spec, depth, maxDepth))
    decreases maxDepth - depth, |props|
  {
    hide NestedProps, IsDoc, Lookup, DistinctKeys;
    if props != [] {
      var e := props[0];
      var below := PathsBelow(e.val, spec, depth, maxDepth);
      var rest := PathsOf(props[1..], spec, depth, maxDepth);
      DocSplit(props);
      if NestedProps(spec, e.val).Some? && depth < maxDepth {
        NestedIsDoc(spec, e.val);
        PathsAreDistinct(NestedProps(spec, e.val).value, spec, depth + 1, maxDepth);
        KeysOfPaths(NestedProps(spec, e.val).value, spec, depth + 1, maxDepth);
      }
      PathsAreDistinct(props[1..], spec, depth, maxDepth);
      KeysOfPaths(props[1..], spec, depth, maxDepth);
      assert forall p :: p in rest ==> StartsAt(props[1..], p);
      forall i | 0 <= i < |below| ensures below[i] != [] {
        assert below[i] in below;
        assert StartsAt(NestedProps(spec, e.val).value, below[i]);
      }
      DistinctTree(e.key, below, rest);
      ParentsFirstTree(e.key, below, rest);
    }
  }

  lemma DistinctTree(key: string, below: seq<Path>, rest: seq<Path>)
    requires Distinct(below) && Distinct(rest)
    requires forall i :: 0 <= i < |below| ==> below[i] != []
    requires forall p :: p in rest ==> p != [] && p[0] != key
    ensures Distinct(Tree(key, below, rest))
  {
    var t := Tree(key, below, rest);
    forall i, j | 0 <= i < j < |t| ensures t[i] != t[j] {
      TreeAt(key, below, rest, i);
      TreeAt(key, below, rest, j);
      if j <= |below| {
        assert t[j][1..] == below[j - 1];
        if i > 0 {
          assert t[i][1..] == below[i - 1];
        }
      } else {
        assert t[j] in rest;
      }
    }
  }

  lemma ParentsFirstTree(key: string, below: seq<Path>, rest: seq<Path>)
    requires ParentsFirst(below) && ParentsFirst(rest)
    requires forall i :: 0 <= i < |below| ==> below[i] != []
    ensures ParentsFirst(Tree(key, below, rest))
  {
    hide ParentsFirst;
    var t := Tree(key, below, rest);
    forall j | 0 <= j < |t| && |t[j]| > 1 ensures t[j][..|t[j]| - 1] in t[..j] {
      if j <= |below| {
        ParentBelow(key, below, rest, j);
      } else {
        ParentInRest(key, below, rest, j);
      }
    }
    assert ParentsFirst(t) by { ParentsFirstIntro(t); }
  }

  lemma ParentsFirstIntro(t: seq<Path>)
    requires forall j :: 0 <= j < |t| && |t[j]| > 1 ==> t[j][..|t[j]| - 1] in t[..j]
    ensures ParentsFirst(t)
  {
  }

  lemma ConsInit(key: string, p: Path)
    requires p != []
    ensures ([key] + p)[..|p|] == [key] + p[..|p| - 1]
  {
  }

  lemma ParentBelow(key: string, below: seq<Path>, rest: seq<Path>, j: nat)
    requires ParentsFirst(below) && 0 < j <= |below| && below[j - 1] != []
    ensures var t := Tree(key, below, rest); t[j][..|t[j]| - 1] in t[..j]
  {
    hide Tree, ParentsFirst;
    var t, p := Tree(key, below, rest), below[j - 1];
    TreeSize(key, below, rest);
    TreeAt(key, below, rest, 0);
    TreeAt(key, below, rest, j);
    var parent, q := t[j][..|t[j]| - 1], p[..|p| - 1];
    ConsInit(key, p);
    if q == [] {
      assert [key] + q == [key] == t[..j][0];
    } else {
      assert q in below[..j - 1] by { ParentOf(below, j - 1); }
      var i :| 0 <= i < j - 1 && below[..j - 1][i] == q;
      TreeAt(key, below, rest, i + 1);
      assert t[..j][i + 1] == t[i + 1] == [key] + below[i];
    }
  }

  lemma ParentOf(paths: seq<Path>, j: nat)
    requires ParentsFirst(paths) && j < |paths| && |paths[j]| > 1
    ensures paths[j][..|paths[j]| - 1] in paths[..j]
  {
  }

  lemma TreeSize(key: string, below: seq<Path>, rest: seq<Path>)
    ensures |Tree(key, below, rest)| == 1 + |below| + |rest|
  {
  }

  lemma ParentInRest(key: string, below: seq<Path>, rest: seq<Path>, j: nat)
    requires ParentsFirst(rest) && |below| < j < 1 + |below| + |rest| && |rest[j - 1 - |below|]| > 1
    ensures var t := Tree(key, below, rest); |t[j]| > 1 && t[j][..|t[j]| - 1] in t[..j]
  {
    hide Tree, ParentsFirst;
    var t, k := Tree(key, below, rest), j - 1 - |below|;
    TreeSize(key, below, rest);
    TreeAt(key, below, rest, j);
    var parent := rest[k][..|rest[k]| - 1];
    assert parent in rest[..k] by { ParentOf(rest, k); }
    var i :| 0 <= i < k && rest[..k][i] == parent;
    TreeAt(key, below, rest, i + 1 + |below|);
    assert t[..j][i + 1 + |below|] == rest[i];
  }

  /** The path reaches a property within the depth bound. */
  predicate Reaches(props: seq<Entry>, spec: Value, path: Path, depth: nat, maxDepth: nat) {
    Names(props, spec, path) && |path| <= 1 + (if depth < maxDepth then maxDepth - depth else 0)
  }

  lemma {:induction false} PathsNameProperties(props: seq<Entry>, spec: Value, depth: nat, maxDepth: nat)
    requires IsDoc(spec) && IsDoc(Map(props))
    ensures forall p :: p in PathsOf(props, spec, depth, maxDepth) ==> Reaches(props, spec, p, depth, maxDepth)
    decreases maxDepth - depth, |props|
  {
    hide NestedProps, IsDoc, DistinctKeys;
    if props != [] {
      var e, rest := props[0], PathsOf(props[1..], spec, depth, maxDepth);
      var below := PathsBelow(e.val, spec, depth, maxDepth);
      DocSplit(props);
      if NestedProps(spec, e.val).Some? && depth < maxDepth {
        NestedIsDoc(spec, e.val);
        PathsNameProperties(NestedProps(spec, e.val).value, spec, depth + 1, maxDepth);
      }
      PathsNameProperties(props[1..], spec, depth, maxDepth);
      forall p | p in Tree(e.key, below, rest) ensures Reaches(props, spec, p, depth, maxDepth) {
        if p in rest {
          assert Reaches(props[1..], spec, p, depth, maxDepth);
        } else if p != [e.key] {
          var i :| 0 <= i < |below| && p == [e.key] + below[i];
          assert p[1..] == below[i] && below[i] in below;
          assert Reaches(NestedProps(spec, e.val).value, spec, below[i], depth + 1, maxDepth);
        }
      }
    }
  }

  /** No path within the bound is left out. */
  lemma {:induction false} EveryPathIsListed(props: seq<Entry>, spec: Value, depth: nat, maxDepth: nat, p: Path)
    requires Reaches(props, spec, p, depth, maxDepth)
    ensures p in PathsOf(props, spec, depth, maxDepth)
    decreases |p|, |props|
  {
    hide NestedProps;
    var e, rest := props[0], PathsOf(props[1..], spec, depth, maxDepth);
    var below := PathsBelow(e.val, spec, depth, maxDepth);
    var all := Tree(e.key, below, rest);
    if e.key != p[0] {
      EveryPathIsListed(props[1..], spec, depth, maxDepth, p);
      var i :| 0 <= i < |rest| && rest[i] == p;
      TreeAt(e.key, below, rest, 1 + |below| + i);
    } else if |p| == 1 {
      assert p == [e.key] == all[0];
    } else {
      EveryPathIsListed(NestedProps(spec, e.val).value, spec, depth + 1, maxDepth, p[1..]);
      var i :| 0 <= i < |below| && below[i] == p[1..];
      TreeAt(e.key, below, rest, i + 1);
      assert all[i + 1] == p;
    }
  }

  /** Nested properties of a Python spec form a dict. */
  lemma NestedIsDoc(spec: Value, schema: Value)
    requires IsDoc(spec) && IsDoc(schema) && NestedProps(spec, schema).Some?
    ensures IsDoc(Map(NestedProps(spec, schema).value))
  {
    hide IsDoc, ResolveSchema, Get;
    ResolveIsDoc(spec, schema, 0);
    var resolved := Resolved(spec, schema).value;
    GetIsDoc(resolved, "properties");
  }

  // ---------------------------------------------------------------- the table

  predicate DotFree(path: Path) {
    forall i :: 0 <= i < |path| ==> '.' !in path[i]
  }

  /** Dot-free paths with the same dotted name are the same path. */
  lemma DottedIsInjective(p: Path, q: Path)
    requires p != [] && q != [] && DotFree(p) && DotFree(q) && Join(p, ".") == Join(q, ".")
    ensures p == q
  {
    SplitJoin(p, '.');
    SplitJoin(q, '.');
  }

  /** The rows of a dict of properties: one per path, in pre-order, for exactly the paths that
      reach a property at most maxDepth - depth levels below; and with dot-free names no two rows
      have the same name. */
  lemma NestedTable(props: seq<Entry>, required: seq<string>, spec: Value, depth: nat, maxDepth: nat, prefix: string)
    requires IsDoc(spec) && IsDoc(Map(props)) && CollectRows(props, required, spec, depth, maxDepth, prefix).Some?
    ensures var rows := CollectRows(props, required, spec, depth, maxDepth, prefix).value;
            var paths := PathsOf(props, spec, depth, maxDepth);
            && |rows| == |paths| && Distinct(paths) && ParentsFirst(paths)
            && (forall p :: p in paths <==> Reaches(props, spec, p, depth, maxDepth))
            && (forall i :: 0 <= i < |rows| ==>
                  rows[i].name == prefix + Join(paths[i], ".")
                  && rows[i].required == RequiredAt(props, required, spec, paths[i]))
            && ((forall i :: 0 <= i < |paths| ==> DotFree(paths[i])) ==>
                  forall i, j :: 0 <= i < j < |rows| ==> rows[i].name != rows[j].name)
  {
    hide IsDoc, PathsOf, CollectRows, Reaches, RequiredAt, Join, ParentsFirst;
    RowNames(props, required, spec, depth, maxDepth, prefix);
    RowFlags(props, required, spec, depth, maxDepth, prefix);
    PathsAreDistinct(props, spec, depth, maxDepth);
    PathsNameProperties(props, spec, depth, maxDepth);
    forall p | Reaches(props, spec, p, depth, maxDepth) ensures p in PathsOf(props, spec, depth, maxDepth) {
      EveryPathIsListed(props, spec, depth, maxDepth, p);
    }
    var rows := CollectRows(props, required, spec, depth, maxDepth, prefix).value;
    var paths := PathsOf(props, spec, depth, maxDepth);
    if forall i :: 0 <= i < |paths| ==> DotFree(paths[i]) {
      forall i, j | 0 <= i < j < |rows| ensures rows[i].name != rows[j].name {
        assert paths[i] != paths[j] && DotFree(paths[i]) && DotFree(paths[j]);
        if rows[i].name == rows[j].name {
          assert (prefix + Join(paths[i], "."))[|prefix|..] == Join(paths[i], ".");
          assert (prefix + Join(paths[j], "."))[|prefix|..] == Join(paths[j], ".");
          DottedIsInjective(paths[i], paths[j]);
        }
      }
    }
  }
}
