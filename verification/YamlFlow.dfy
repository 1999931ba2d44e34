/** Splitting flow collections: the splitter loses nothing, cuts at every comma outside brackets and
    at no other, and gives back exactly the lists of items that such commas separate. */
module YamlFlow {
  import opened Text
  import opened YamlText

  function DepthStep(depth: int, c: char): int {
    if IsOpener(c) then depth + 1 else if IsCloser(c) then depth - 1 else depth
  }

  function DepthOf(s: string): int {
    if s == "" then 0 else DepthStep(DepthOf(s[..|s| - 1]), s[|s| - 1])
  }

  /** No comma of s stands outside all brackets. */
  predicate NoTopComma(s: string) {
    forall i :: 0 <= i < |s| && s[i] == ',' ==> DepthOf(s[..i]) != 0
  }

  lemma NoTopCommaGrows(s: string, c: char)
    requires NoTopComma(s) && (c == ',' ==> DepthOf(s) != 0)
    ensures NoTopComma(s + [c]) && DepthOf(s + [c]) == DepthStep(DepthOf(s), c)
  {
    assert (s + [c])[..|s|] == s;
    forall i | 0 <= i < |s| + 1 && (s + [c])[i] == ','
      ensures DepthOf((s + [c])[..i]) != 0
    {
      assert (s + [c])[..i] == s[..i];
    }
  }

  /** The cut after the last item may be a comma that opens no item. */
  predicate Rejoins(items: seq<string>, text: string) {
    Join(items, ",") == text || Join(items, ",") + "," == text
  }

  /** Items that top-level commas can separate. */
  predicate IsSplit(items: seq<string>) {
    && (forall i :: 0 <= i < |items| ==> NoTopComma(items[i]))
    && (forall i :: 0 <= i < |items| - 1 ==> DepthOf(items[i]) == 0)
  }

  lemma NothingDeep()
    ensures DepthOf("") == 0 && NoTopComma("")
  {
  }

  lemma {:induction false} FlowSplitMeaning(text: string, current: string)
    requires NoTopComma(current)
    ensures var items := FlowSplit(text, DepthOf(current), current);
            && (forall i :: 0 <= i < |items| ==> NoTopComma(items[i]))
            && (forall i :: 0 <= i < |items| - 1 ==> DepthOf(items[i]) == 0)
            && (items == [] <==> current + text == "") && Rejoins(items, current + text)
  {
    hide NoTopComma, DepthOf;
    if text == "" {
      assert current + text == current;
      NothingDeep();
    } else {
      var c := text[0];
      assert current + [c] + text[1..] == current + text;
      if c == ',' && DepthOf(current) == 0 {
        var rest := FlowSplit(text[1..], 0, "");
        NothingDeep();
        FlowSplitMeaning(text[1..], "");
        assert "" + text[1..] == text[1..];
        if rest != [] {
          JoinCons(current, rest, ",");
          assert current + "," + Join(rest, ",") + "," == current + "," + (Join(rest, ",") + ",");
        }
      } else {
        NoTopCommaGrows(current, c);
        FlowSplitMeaning(text[1..], current + [c]);
      }
    }
  }

  /** What `_split_flow` returns: items without a top-level comma, all but the last one balanced,
      whose join is the text, up to one final comma. */
  lemma FlowItemsMeaning(text: string)
    ensures IsSplit(FlowItems(text))
    ensures Rejoins(FlowItems(text), text) && (FlowItems(text) == [] <==> text == "")
  {
    FlowSplitMeaning(text, "");
    assert "" + text == text;
  }

  // ---------------------------------------------------------------- bracket depth

  lemma {:induction false} DepthAppend(a: string, b: string)
    ensures DepthOf(a + b) == DepthOf(a) + DepthOf(b)
  {
    if b == "" {
      assert a + b == a;
    } else {
      var init := b[..|b| - 1];
      assert (a + b)[..|a + b| - 1] == a + init;
      DepthAppend(a, init);
    }
  }

  function CountOf(s: string, c: char): nat {
    if s == "" then 0 else CountOf(s[..|s| - 1], c) + (if s[|s| - 1] == c then 1 else 0)
  }

  /** The depth is the number of opening braces and brackets less that of the closing ones, of
      whatever kind. */
  lemma {:induction false} DepthMeaning(s: string)
    ensures DepthOf(s) == CountOf(s, '{') + CountOf(s, '[') - CountOf(s, '}') - CountOf(s, ']')
  {
    if s != "" {
      DepthMeaning(s[..|s| - 1]);
    }
  }

  predicate IsFlat(s: string) {
    forall i :: 0 <= i < |s| ==> s[i] != ',' && !IsOpener(s[i]) && !IsCloser(s[i])
  }

  lemma {:induction false} FlatDepth(s: string)
    requires IsFlat(s)
    ensures DepthOf(s) == 0 && NoTopComma(s)
  {
    if s != "" {
      FlatDepth(s[..|s| - 1]);
    }
  }

  /** A part that starts at depth 0 is cut where the whole is. */
  lemma PartIsUncut(a: string, b: string, c: string)
    requires NoTopComma(a + b + c) && DepthOf(a) == 0
    ensures NoTopComma(b)
  {
    var s := a + b + c;
    forall i | 0 <= i < |b| && b[i] == ',' ensures DepthOf(b[..i]) != 0 {
      assert s[|a| + i] == ',' && s[..|a| + i] == a + b[..i];
      DepthAppend(a, b[..i]);
    }
  }

  lemma JoinUncut(a: string, b: string)
    requires NoTopComma(a) && DepthOf(a) == 0 && NoTopComma(b)
    ensures NoTopComma(a + b)
  {
    var s := a + b;
    forall i | 0 <= i < |s| && s[i] == ',' ensures DepthOf(s[..i]) != 0 {
      if i < |a| {
        assert s[..i] == a[..i];
      } else {
        assert s[..i] == a + b[..i - |a|];
        DepthAppend(a, b[..i - |a|]);
      }
    }
  }

  // ---------------------------------------------------------------- splitting what was joined

  /** The splitter passes over an item without top-level commas. */
  lemma {:induction false} PassItem(current: string, item: string, rest: string)
    requires NoTopComma(current + item)
    ensures FlowSplit(item + rest, DepthOf(current), current)
            == FlowSplit(rest, DepthOf(current + item), current + item)
    decreases |item|
  {
    hide NoTopComma, DepthOf;
    if item == "" {
      assert item + rest == rest && current + item == current;
    } else {
      var c := item[0];
      assert (item + rest)[1..] == item[1..] + rest && (item + rest)[0] == c;
      assert current + [c] + item[1..] == current + item;
      CommaIsDeep(current, c, item[1..]);
      PassItem(current + [c], item[1..], rest);
    }
  }

  lemma CommaIsDeep(current: string, c: char, rest: string)
    requires NoTopComma(current + [c] + rest)
    ensures c == ',' ==> DepthOf(current) != 0
    ensures DepthOf(current + [c]) == DepthStep(DepthOf(current), c)
  {
    var s := current + [c] + rest;
    assert s[|current|] == c && s[..|current|] == current;
    assert (current + [c])[..|current|] == current;
  }

  lemma FirstItem(item: string, rest: string)
    requires NoTopComma(item) && DepthOf(item) == 0
    ensures FlowItems(item + "," + rest) == [item] + FlowItems(rest)
  {
    hide NoTopComma, DepthOf;
    NothingDeep();
    assert "" + item == item && item + "," + rest == item + ("," + rest);
    PassItem("", item, "," + rest);
    assert ("," + rest)[1..] == rest;
  }

  lemma LastItem(item: string)
    requires NoTopComma(item) && item != ""
    ensures FlowItems(item) == [item]
  {
    hide NoTopComma, DepthOf;
    NothingDeep();
    assert "" + item == item && item + "" == item;
    PassItem("", item, "");
  }

  /** Joined items are split into themselves exactly when top-level commas can separate them. */
  lemma {:induction false} SplitIsExact(items: seq<string>)
    requires items != [] && items[|items| - 1] != ""
    ensures FlowItems(Join(items, ",")) == items <==> IsSplit(items)
  {
    hide NoTopComma, DepthOf, FlowItems;
    if IsSplit(items) {
      if |items| == 1 {
        LastItem(items[0]);
      } else {
        SplitIsExact(items[1..]);
        FirstItem(items[0], Join(items[1..], ","));
      }
    }
    FlowItemsMeaning(Join(items, ","));
  }
}
