/** Matching MQTT topics against address templates such as `BMS/{publisher}/{tagPath}`, whose
    last parameter takes one or more segments. */
module TopicAddress {
  import opened Text

  type Params = map<string, string>

  predicate IsAddressParam(part: string) {
    StartsWith(part, "{") && EndsWith(part, "}")
  }

  function ParamName(part: string): string
    requires IsAddressParam(part)
  {
    if |part| < 2 then "" else part[1..|part| - 1]
  }

  predicate ContainsWildcard(part: string) {
    '+' in part || '#' in part
  }

  predicate IsSegment(part: string) {
    part != "" && !ContainsWildcard(part)
  }

  predicate AllSegments(parts: seq<string>) {
    forall i :: 0 <= i < |parts| ==> IsSegment(parts[i])
  }

  function MatchFrom(address: seq<string>, topic: seq<string>, i: nat, params: Params): Option<Params>
    requires i <= |address|
    decreases |address| - i
  {
    if i == |address| then (if |topic| == |address| then Some(params) else None)
    else if i >= |topic| then None
    else if IsAddressParam(address[i]) then
      var name := ParamName(address[i]);
      if i == |address| - 1 then
        var tail := Join(topic[i..], "/");
        if tail != "" then Some(params[name := tail]) else None
      else MatchFrom(address, topic, i + 1, params[name := topic[i]])
    else if address[i] == topic[i] then MatchFrom(address, topic, i + 1, params)
    else None
  }

  function Matched(address: string, topic: string): Option<Params> {
    var topicParts := Split(topic, '/');
    if AllSegments(topicParts) then MatchFrom(Split(address, '/'), topicParts, 0, map[]) else None
  }

  method MatchTopicAddress(address: string, topic: string) returns (r: Option<Params>)
    ensures r == Matched(address, topic)
  {
    hide Split, Join, IsAddressParam, IsSegment;
    var addressParts := Split(address, '/');
    var topicParts := Split(topic, '/');
    var params: Params := map[];
    for k := 0 to |topicParts|
      invariant forall j :: 0 <= j < k ==> IsSegment(topicParts[j])
    {
      if !IsSegment(topicParts[k]) {
        return None;
      }
    }
    for i := 0 to |addressParts|
      invariant MatchFrom(addressParts, topicParts, i, params) == MatchFrom(addressParts, topicParts, 0, map[])
    {
      if i >= |topicParts| {
        return None;
      }
      if IsAddressParam(addressParts[i]) {
        var paramName := ParamName(addressParts[i]);
        if i == |addressParts| - 1 {
          var tail := Join(topicParts[i..], "/");
          return if tail != "" then Some(params[paramName := tail]) else None;
        }
        params := params[paramName := topicParts[i]];
        continue;
      }
      if addressParts[i] != topicParts[i] {
        return None;
      }
    }
    r := if |topicParts| == |addressParts| then Some(params) else None;
  }

  // ---------------------------------------------------------------- instances

  /** One value for each part of the address: literals stand for themselves, a parameter takes one
      segment, and a parameter in last place one or more. */
  predicate Fits(address: seq<string>, values: seq<string>) {
    |values| == |address| && forall i :: 0 <= i < |address| ==> FitsAt(address, values[i], i)
  }

  predicate FitsAt(address: seq<string>, v: string, i: nat)
    requires i < |address|
  {
    if IsAddressParam(address[i]) && i == |address| - 1 then AllSegments(Split(v, '/'))
    else IsSegment(v) && '/' !in v && (!IsAddressParam(address[i]) ==> v == address[i])
  }

  /** The bindings the parameters get, a later parameter of the same name winning. */
  function BindFrom(address: seq<string>, values: seq<string>, i: nat, params: Params): Params
    requires i <= |address| && |values| == |address|
    decreases |address| - i
  {
    if i == |address| then params
    else BindFrom(address, values, i + 1,
                  if IsAddressParam(address[i]) then params[ParamName(address[i]) := values[i]] else params)
  }

  function Bindings(address: seq<string>, values: seq<string>): Params
    requires |values| == |address|
  {
    BindFrom(address, values, 0, map[])
  }

  lemma {:induction false} SplitJoinTail(values: seq<string>)
    requires values != [] && forall i :: 0 <= i < |values| - 1 ==> '/' !in values[i]
    ensures Split(Join(values, "/"), '/') == values[..|values| - 1] + Split(values[|values| - 1], '/')
  {
    hide Split;
    if |values| > 1 {
      SplitPlain(values[0], '/');
      SplitAt(values[0], Join(values[1..], "/"), '/');
      SplitJoinTail(values[1..]);
      assert values[1..][|values| - 2] == values[|values| - 1];
      assert values[..|values| - 1] == [values[0]] + values[1..][..|values| - 2];
    } else {
      assert values[..0] == [];
    }
  }

  /** The value of each part in a matched topic. */
  function ValuesIn(address: seq<string>, topic: seq<string>): seq<string>
    requires address != [] && |topic| >= |address|
  {
    var n := |address|;
    topic[..n - 1] + [Join(topic[n - 1..], "/")]
  }

  lemma {:induction false} MatchBinds(address: seq<string>, topic: seq<string>, i: nat, params: Params)
    requires address != [] && i <= |address| && |topic| >= |address|
    ensures var values := ValuesIn(address, topic);
            var exact := IsAddressParam(address[|address| - 1]) || |topic| == |address|;
            MatchFrom(address, topic, i, params).Some? && i < |address| ==>
              && MatchFrom(address, topic, i, params) == Some(BindFrom(address, values, i, params))
              && exact && forall k :: i <= k < |address| && !IsAddressParam(address[k]) ==> address[k] == topic[k]
    decreases |address| - i
  {
    hide Join, IsAddressParam;
    var n := |address|;
    var values := ValuesIn(address, topic);
    if i < n && MatchFrom(address, topic, i, params).Some? {
      if i == n - 1 {
        if IsAddressParam(address[i]) {
          assert BindFrom(address, values, i + 1, params[ParamName(address[i]) := values[i]])
              == params[ParamName(address[i]) := values[i]];
        } else {
          assert BindFrom(address, values, i + 1, params) == params;
        }
      } else {
        var next := if IsAddressParam(address[i]) then params[ParamName(address[i]) := topic[i]] else params;
        MatchBinds(address, topic, i + 1, next);
      }
    }
  }

  lemma {:induction false} MatchedIsLong(address: seq<string>, topic: seq<string>, i: nat, params: Params)
    requires i <= |address| && MatchFrom(address, topic, i, params).Some?
    ensures i < |address| ==> |topic| >= |address|
    decreases |address| - i
  {
    hide Join, IsAddressParam;
    if i < |address| - 1 {
      var next := if IsAddressParam(address[i]) then params[ParamName(address[i]) := topic[i]] else params;
      MatchedIsLong(address, topic, i + 1, next);
    }
  }

  /** A match fits: the values are segments of the topic, and they put it together again. */
  lemma MatchFits(address: string, topic: string)
    requires Matched(address, topic).Some?
    ensures var a := Split(address, '/');
            var t := Split(topic, '/');
            && |t| >= |a| && Fits(a, ValuesIn(a, t)) && Join(ValuesIn(a, t), "/") == topic
            && Matched(address, topic) == Some(Bindings(a, ValuesIn(a, t)))
  {
    hide Join, IsAddressParam, IsSegment, MatchFrom;
    var a, t := Split(address, '/'), Split(topic, '/');
    var n := |a|;
    MatchedIsLong(a, t, 0, map[]);
    MatchBinds(a, t, 0, map[]);
    var values := ValuesIn(a, t);
    var tail := t[n - 1..];
    assert t == t[..n - 1] + tail;
    JoinSplit(topic, '/');
    SplitJoin(tail, '/');
    if n > 1 {
      JoinAppend(t[..n - 1], tail, "/");
      JoinAppend(t[..n - 1], [values[n - 1]], "/");
    } else {
      assert values == [Join(tail, "/")] && tail == t;
    }
    JoinOne(values[n - 1], "/");
    forall i | 0 <= i < n ensures FitsAt(a, values[i], i) {
      assert IsSegment(t[i]);
      if i == n - 1 {
        assert AllSegments(tail);
        if !IsAddressParam(a[i]) {
          assert tail == [t[i]];
          JoinOne(t[i], "/");
        }
      }
    }
  }

  lemma {:induction false} FittingMatches(
      address: seq<string>, values: seq<string>, topic: seq<string>, i: nat, params: Params)
    requires address != [] && Fits(address, values) && i < |address|
    requires topic == values[..|values| - 1] + Split(values[|values| - 1], '/')
    ensures MatchFrom(address, topic, i, params) == Some(BindFrom(address, values, i, params))
    decreases |address| - i
  {
    hide Join, IsAddressParam, IsSegment, Split;
    var n := |address|;
    assert FitsAt(address, values[i], i);
    if i == n - 1 {
      var last := values[n - 1];
      assert topic[i..] == Split(last, '/');
      if IsAddressParam(address[i]) {
        JoinSplit(last, '/');
        var next := params[ParamName(address[i]) := last];
        LastIsNotEmpty(last);
        assert BindFrom(address, values, n, next) == next;
      } else {
        SplitPlain(last, '/');
        assert MatchFrom(address, topic, n, params) == Some(params);
        assert BindFrom(address, values, n, params) == params;
      }
    } else {
      var next := if IsAddressParam(address[i]) then params[ParamName(address[i]) := topic[i]] else params;
      FittingMatches(address, values, topic, i + 1, next);
    }
  }

  lemma LastIsNotEmpty(v: string)
    requires AllSegments(Split(v, '/'))
    ensures v != ""
  {
    assert Split("", '/') == [""];
    assert IsSegment(Split(v, '/')[0]);
  }

  lemma FittingIsValid(address: seq<string>, values: seq<string>)
    requires address != [] && Fits(address, values)
    ensures AllSegments(values[..|values| - 1] + Split(values[|values| - 1], '/'))
  {
    hide IsAddressParam, IsSegment, Split;
    var n := |address|;
    assert forall i :: 0 <= i < n ==> FitsAt(address, values[i], i);
    if !AllSegments(Split(values[n - 1], '/')) {
      SplitPlain(values[n - 1], '/');
    }
  }

  /** Matching is exactly the inverse of filling in the parts, for any address: a topic matches with
      params iff it is the join of values that fit the address, and params are their bindings. */
  lemma MatchIsInverse(address: string, topic: string, params: Params)
    ensures var a := Split(address, '/');
            Matched(address, topic) == Some(params) <==>
            exists values :: Fits(a, values) && Join(values, "/") == topic && Bindings(a, values) == params
  {
    hide FitsAt, BindFrom, MatchFrom, AllSegments, Join;
    var a := Split(address, '/');
    if Matched(address, topic) == Some(params) {
      MatchFits(address, topic);
      assert Fits(a, ValuesIn(a, Split(topic, '/')));
    }
    forall values | Fits(a, values) && Join(values, "/") == topic && Bindings(a, values) == params
      ensures Matched(address, topic) == Some(params)
    {
      FittingReads(address, values);
    }
  }

  lemma FittingReads(address: string, values: seq<string>)
    requires Fits(Split(address, '/'), values)
    ensures Matched(address, Join(values, "/")) == Some(Bindings(Split(address, '/'), values))
  {
    hide MatchFrom, AllSegments, Join;
    var a := Split(address, '/');
    forall i | 0 <= i < |values| - 1 ensures '/' !in values[i] {
      assert FitsAt(a, values[i], i);
    }
    SplitJoinTail(values);
    FittingIsValid(a, values);
    FittingMatches(a, values, Split(Join(values, "/"), '/'), 0, map[]);
  }

  // ---------------------------------------------------------------- distinct parameter names

  predicate DistinctNames(address: seq<string>) {
    forall i, j :: 0 <= i < j < |address| && IsAddressParam(address[i]) && IsAddressParam(address[j]) ==>
      ParamName(address[i]) != ParamName(address[j])
  }

  function NamesOf(address: seq<string>): (r: set<string>) {
    set i | 0 <= i < |address| && IsAddressParam(address[i]) :: ParamName(address[i])
  }

  /** The parts of the address with the parameters replaced. */
  function Filled(address: seq<string>, params: Params): seq<string>
    requires NamesOf(address) <= params.Keys
  {
    seq(|address|, i requires 0 <= i < |address| =>
      if IsAddressParam(address[i]) then params[ParamName(address[i])] else address[i])
  }

  lemma {:induction false} BindMeaning(address: seq<string>, values: seq<string>, i: nat, params: Params)
    requires |values| == |address| && i <= |address| && DistinctNames(address)
    ensures var r := BindFrom(address, values, i, params);
            && (forall k :: i <= k < |address| && IsAddressParam(address[k]) ==>
                  ParamName(address[k]) in r && r[ParamName(address[k])] == values[k])
            && (forall name ::
                  (forall k :: i <= k < |address| && IsAddressParam(address[k]) ==> ParamName(address[k]) != name) ==>
                  (name in r <==> name in params) && (name in params ==> r[name] == params[name]))
    decreases |address| - i
  {
    hide IsAddressParam;
    if i < |address| {
      var next := if IsAddressParam(address[i]) then params[ParamName(address[i]) := values[i]] else params;
      BindMeaning(address, values, i + 1, next);
      var r := BindFrom(address, values, i + 1, next);
      assert BindFrom(address, values, i, params) == r;
      if IsAddressParam(address[i]) {
        var name := ParamName(address[i]);
        assert forall k :: i + 1 <= k < |address| && IsAddressParam(address[k]) ==> ParamName(address[k]) != name;
        assert name in next && name in r && r[name] == next[name];
      }
    }
  }

  /** With distinct parameter names the bindings are the parameters, and filling them in gives the values back. */
  lemma BindingsFill(address: seq<string>, values: seq<string>)
    requires DistinctNames(address) && Fits(address, values)
    ensures Bindings(address, values).Keys == NamesOf(address) && Filled(address, Bindings(address, values)) == values
  {
    hide IsAddressParam, BindFrom, IsSegment, Split;
    BindMeaning(address, values, 0, map[]);
    var p := Bindings(address, values);
    forall name | name in p ensures name in NamesOf(address) {
      var none: Params := map[];
      assert name !in none;
    }
    assert p.Keys == NamesOf(address);
    forall i | 0 <= i < |address| ensures Filled(address, p)[i] == values[i] {
      assert FitsAt(address, values[i], i);
    }
  }

  lemma FilledBinds(address: seq<string>, params: Params)
    requires DistinctNames(address) && params.Keys == NamesOf(address) && Fits(address, Filled(address, params))
    ensures Bindings(address, Filled(address, params)) == params
  {
    hide IsAddressParam, BindFrom;
    var values := Filled(address, params);
    BindingsFill(address, values);
    BindMeaning(address, values, 0, map[]);
    var p := Bindings(address, values);
    forall name | name in params ensures p[name] == params[name] {
      var k :| 0 <= k < |address| && IsAddressParam(address[k]) && ParamName(address[k]) == name;
      assert p[name] == values[k];
    }
  }

  /** With distinct parameter names: a topic matches with params iff params assign exactly the
      parameters of the address, their values fit, and the filled-in address is the topic. */
  lemma MatchIsInverseOfFilling(address: string, topic: string, params: Params)
    requires DistinctNames(Split(address, '/'))
    ensures var a := Split(address, '/');
            Matched(address, topic) == Some(params) <==>
            params.Keys == NamesOf(a) && Fits(a, Filled(a, params)) && Join(Filled(a, params), "/") == topic
  {
    hide FitsAt, BindFrom, Matched, DistinctNames, Join, NamesOf;
    var a := Split(address, '/');
    MatchIsInverse(address, topic, params);
    if Matched(address, topic) == Some(params) {
      var values :| Fits(a, values) && Join(values, "/") == topic && Bindings(a, values) == params;
      BindingsFill(a, values);
    }
    if params.Keys == NamesOf(a) && Fits(a, Filled(a, params)) && Join(Filled(a, params), "/") == topic {
      FilledBinds(a, params);
    }
  }

  // ---------------------------------------------------------------- in the characters of the address

  /** The address part at i is the parameter of this name, and no later part is. */
  predicate IsLastParam(address: seq<string>, i: nat, name: string) {
    i < |address| && address[i] == "{" + name + "}" && forall k :: i < k < |address| ==> address[k] != address[i]
  }

  lemma InBraces(part: string)
    requires IsAddressParam(part)
    ensures part == "{" + ParamName(part) + "}"
  {
    assert part[..1] == "{" && part[|part| - 1..] == "}";
    assert part[0] == part[..1][0] && part[|part| - 1] == part[|part| - 1..][0];
    assert part == part[..1] + part[1..|part| - 1] + part[|part| - 1..];
  }

  lemma BracesAround(name: string)
    ensures IsAddressParam("{" + name + "}") && ParamName("{" + name + "}") == name
  {
    var part := "{" + name + "}";
    assert part[..1] == "{" && part[|part| - 1..] == "}" && part[1..|part| - 1] == name;
  }

  /** A parameter is its name in braces. */
  lemma ParamMeaning(part: string)
    ensures IsAddressParam(part) <==> exists name :: part == "{" + name + "}"
    ensures forall name :: part == "{" + name + "}" ==> IsAddressParam(part) && ParamName(part) == name
  {
    hide IsAddressParam, ParamName;
    if IsAddressParam(part) {
      InBraces(part);
    }
    forall name | part == "{" + name + "}" ensures IsAddressParam(part) && ParamName(part) == name {
      BracesAround(name);
    }
  }

  /** The bindings are those of the last parameter of each name. */
  lemma {:induction false} LastBinds(address: seq<string>, values: seq<string>, i: nat, params: Params, name: string)
    requires |values| == |address| && i <= |address|
    ensures var r := BindFrom(address, values, i, params);
            && (forall k: nat :: i <= k && IsLastParam(address, k, name) ==> name in r && r[name] == values[k])
            && ((forall k :: i <= k < |address| ==> address[k] != "{" + name + "}") ==>
                  (name in r <==> name in params) && (name in params ==> r[name] == params[name]))
    decreases |address| - i
  {
    hide IsAddressParam, ParamName;
    if i < |address| {
      ParamMeaning(address[i]);
      var next := if IsAddressParam(address[i]) then params[ParamName(address[i]) := values[i]] else params;
      LastBinds(address, values, i + 1, next, name);
      assert BindFrom(address, values, i, params) == BindFrom(address, values, i + 1, next);
      if IsLastParam(address, i, name) {
        assert forall k :: i + 1 <= k < |address| ==> address[k] != "{" + name + "}";
      }
    }
  }

  lemma {:induction false} SomeLast(address: seq<string>, i: nat, name: string) returns (k: nat)
    requires i < |address| && address[i] == "{" + name + "}"
    ensures i <= k && IsLastParam(address, k, name)
    decreases |address| - i
  {
    if j :| i < j < |address| && address[j] == address[i] {
      k := SomeLast(address, j, name);
    } else {
      k := i;
    }
  }

  /** The parameters that are bound, and to what. */
  lemma BindingsMeaning(address: seq<string>, values: seq<string>, name: string)
    requires |values| == |address|
    ensures var r := Bindings(address, values);
            && (forall k: nat :: IsLastParam(address, k, name) ==> name in r && r[name] == values[k])
            && (name in r ==> exists k: nat :: IsLastParam(address, k, name))
  {
    hide BindFrom, IsAddressParam;
    LastBinds(address, values, 0, map[], name);
    if i :| 0 <= i < |address| && address[i] == "{" + name + "}" {
      var k := SomeLast(address, i, name);
    }
  }

  /** One segment of a topic. */
  predicate IsPlainSegment(v: string) {
    v != "" && forall c :: c in v ==> c != '/' && c != '+' && c != '#'
  }

  /** One or more segments. */
  predicate IsTail(v: string) {
    && v != "" && v[0] != '/' && v[|v| - 1] != '/' && !Occurs("//", v)
    && forall c :: c in v ==> c != '+' && c != '#'
  }

  lemma DoubleSlash(s: string)
    ensures Occurs("//", s) <==> exists i :: 0 <= i < |s| - 1 && s[i] == '/' && s[i + 1] == '/'
  {
    if Occurs("//", s) {
      var i :| 0 <= i <= |s| && StartsWith(s[i..], "//");
      assert s[i..][..2] == "//" && s[i] == s[i..][..2][0] && s[i + 1] == s[i..][..2][1];
    }
    if i :| 0 <= i < |s| - 1 && s[i] == '/' && s[i + 1] == '/' {
      assert s[i..][..2] == "//";
      assert StartsWith(s[i..], "//");
    }
  }

  lemma OccursAfter(a: string, b: string)
    requires '/' !in a && a != ""
    ensures Occurs("//", a + "/" + b) <==> (b != "" && b[0] == '/') || Occurs("//", b)
  {
    hide Occurs;
    var s := a + "/" + b;
    DoubleSlash(s);
    DoubleSlash(b);
    assert forall i :: 0 <= i < |a| ==> s[i] == a[i] && a[i] != '/';
    assert s[|a|] == '/' && forall i :: 0 <= i < |b| ==> s[|a| + 1 + i] == b[i];
    if i :| 0 <= i < |s| - 1 && s[i] == '/' && s[i + 1] == '/' {
      if i > |a| {
        assert b[i - |a| - 1] == '/' && b[i - |a| - 1 + 1] == '/';
      }
    }
    if i :| 0 <= i < |b| - 1 && b[i] == '/' && b[i + 1] == '/' {
      assert s[|a| + 1 + i] == '/' && s[|a| + 1 + i + 1] == '/';
    }
  }

  lemma ConsSegments(a: string, parts: seq<string>)
    ensures AllSegments([a] + parts) <==> IsSegment(a) && AllSegments(parts)
  {
    var all := [a] + parts;
    assert all[0] == a && forall i :: 0 <= i < |parts| ==> all[i + 1] == parts[i];
  }

  lemma {:induction false} TailMeaning(v: string)
    ensures AllSegments(Split(v, '/')) <==> IsTail(v)
  {
    hide AllSegments, Split;
    FindMeaning(v, '/');
    if Find(v, '/').None? {
      SplitPlain(v, '/');
      ConsSegments(v, []);
      assert [v] + [] == [v] && AllSegments([]) by { NoSegments(); }
      assert !Occurs("//", v) by { OneSlash(v); }
    } else {
      var i := Find(v, '/').value;
      var a, b := v[..i], v[i + 1..];
      assert v == a + "/" + b;
      SplitAt(a, b, '/');
      SplitPlain(a, '/');
      ConsSegments(a, Split(b, '/'));
      TailMeaning(b);
      if a != "" {
        OccursAfter(a, b);
        assert v[0] == a[0] && a[0] in a;
        assert b != "" ==> v[|v| - 1] == b[|b| - 1];
        assert forall c :: c in v <==> c in a || c == '/' || c in b;
      }
    }
  }

  lemma NoSegments()
    ensures AllSegments([])
  {
  }

  lemma OneSlash(v: string)
    requires '/' !in v
    ensures !Occurs("//", v)
  {
    hide Occurs;
    DoubleSlash(v);
  }

  /** Which values fit: a literal itself, a parameter one segment, and a last parameter one or more. */
  lemma FitsMeaning(address: seq<string>, values: seq<string>)
    ensures Fits(address, values) <==>
              && |values| == |address|
              && forall i :: 0 <= i < |address| ==>
                   if exists name :: address[i] == "{" + name + "}"
                   then (if i == |address| - 1 then IsTail(values[i]) else IsPlainSegment(values[i]))
                   else values[i] == address[i] && IsPlainSegment(values[i])
  {
    hide IsAddressParam, IsTail, Split, AllSegments;
    forall i | 0 <= i < |address| && |values| == |address|
      ensures FitsAt(address, values[i], i) <==>
                if exists name :: address[i] == "{" + name + "}"
                then (if i == |address| - 1 then IsTail(values[i]) else IsPlainSegment(values[i]))
                else values[i] == address[i] && IsPlainSegment(values[i])
    {
      ParamMeaning(address[i]);
      TailMeaning(values[i]);
    }
  }
}
