/** Printed flow mappings of scalars: what they must be to read back, and exactly which do as long as
    the splitter finds no more items than there are entries. */
module YamlFlowMaps {
  import opened Text
  import opened YamlText
  import opened YamlSpec
  import opened YamlPrint
  import opened YamlRoundTrip
  import opened YamlFlow
  import opened YamlFlowReads

  predicate FlowEntry(e: Entry) {
    PrintableKey(e.key) && FlowAtom(e.val)
  }

  predicate FlowEntries(entries: seq<Entry>) {
    forall i :: 0 <= i < |entries| ==> FlowEntry(entries[i])
  }

  function PairText(e: Entry): string
    requires FlowEntry(e)
  {
    KeyText(e.key) + ": " + AtomText(e.val)
  }

  function PairTexts(entries: seq<Entry>): (r: seq<string>)
    requires FlowEntries(entries)
    ensures |r| == |entries|
  {
    seq(|entries|, i requires 0 <= i < |entries| => (if i == 0 then "" else " ") + PairText(entries[i]))
  }

  lemma KeyTextMeaning(k: string)
    requires PrintableKey(k)
    ensures Trimmed(KeyText(k)) && DropQuotes(KeyText(k)) == k && (':' in KeyText(k) <==> ':' in k)
  {
    hide DropQuotes, KeyToken, IsWordKey, Quoted, Quotable;
    KeyTokenReads(k, "");
    if IsWordKey(k) {
      WordHasNoColon(k);
    } else {
      QuotesAround(k);
    }
  }

  lemma WordHasNoColon(k: string)
    requires IsWordKey(k)
    ensures Trimmed(k) && ':' !in k
  {
    assert forall i :: 0 <= i < |k| ==> IsWord(k[i]);
  }

  lemma QuotesAround(k: string)
    ensures Trimmed(Quoted(k)) && (':' in Quoted(k) <==> ':' in k)
  {
  }

  lemma PairShape(pad: string, k: string, a: string)
    ensures var t, i := pad + (k + ": " + a), |pad| + |k|;
            i < |t| && t[..i] == pad + k && t[i] == ':' && t[i + 1..] == " " + a
  {
  }

  /** A pair whose key has no colon is one entry, however it is indented. */
  lemma PairReads(e: Entry, n: nat)
    requires FlowEntry(e) && ':' !in e.key
    ensures var t, i := Spaces(n) + PairText(e), n + |KeyText(e.key)|;
            && Find(t, ':') == Some(i) && i < |t|
            && DropQuotes(Strip(t[..i])) == e.key && ScalarOf(Strip(t[i + 1..])) == e.val
  {
    hide AtomText, KeyText, ScalarOf, WithoutComment, OpensKey, OpensDashMapping, DropQuotes, Strip, PrintableKey;
    var a, k := AtomText(e.val), KeyText(e.key);
    var t, i := Spaces(n) + PairText(e), n + |KeyText(e.key)|;
    PairShape(Spaces(n), k, a);
    assert Spaces(1) == " " && t == Spaces(n) + (k + ": " + a);
    KeyTextMeaning(e.key);
    assert ':' !in Spaces(n) && ':' !in k;
    assert ':' !in t[..i];
    FindFirst(t, ':', i);
    StripIndented(n, k);
    AtomReads(e.val);
    StripIndented(1, a);
  }

  predicate NoColons(entries: seq<Entry>) {
    forall i :: 0 <= i < |entries| ==> ':' !in entries[i].key
  }

  lemma PairTextAt(entries: seq<Entry>, i: nat)
    requires i < |entries| && FlowEntries(entries)
    ensures FlowEntry(entries[i]) && PairTexts(entries)[i] == Spaces(if i == 0 then 0 else 1) + PairText(entries[i])
    ensures var t := PairTexts(entries)[i]; t != "" && !IsSpace(t[|t| - 1]) && (i == 0 ==> !IsSpace(t[0]))
  {
    hide PairText, PrintableKey, FlowAtom;
    var e := entries[i];
    assert FlowEntry(e);
    PairIsTrimmed(e);
    assert Spaces(0) == "" && Spaces(1) == " " && "" + PairText(e) == PairText(e);
  }

  lemma PairIsTrimmed(e: Entry)
    requires FlowEntry(e)
    ensures Trimmed(PairText(e))
  {
    hide AtomText, KeyText, ScalarOf, WithoutComment, OpensKey, OpensDashMapping, PrintableKey, DropQuotes;
    KeyTextMeaning(e.key);
    AtomReads(e.val);
  }

  lemma {:induction false} FlowPairsRead(entries: seq<Entry>, from: nat, acc: seq<Entry>)
    requires from <= |entries| && DistinctKeys(entries) && acc == entries[..from]
    requires FlowEntries(entries) && NoColons(entries)
    ensures FlowPairs(PairTexts(entries)[from..], acc) == entries
    decreases |entries| - from
  {
    hide FlowEntry, PairTexts, PairText, ScalarOf, DropQuotes, Strip, DictSet, Find, KeyText;
    var texts := PairTexts(entries);
    if from == |entries| {
      assert texts[from..] == [] && entries[..from] == entries;
    } else {
      var e, n := entries[from], if from == 0 then 0 else 1;
      PairTextAt(entries, from);
      PairReads(e, n);
      assert texts[from..][0] == texts[from] && texts[from..][1..] == texts[from + 1..];
      assert !HasKey(acc, e.key);
      DictSetNew(acc, e.key, e.val);
      assert acc + [e] == entries[..from + 1];
      FlowPairsRead(entries, from + 1, acc + [e]);
    }
  }

  function FlowMapText(entries: seq<Entry>): string
    requires FlowEntries(entries)
  {
    "{" + Join(PairTexts(entries), ",") + "}"
  }

  lemma FlowMapPairs(entries: seq<Entry>)
    requires entries != [] && FlowEntries(entries)
    ensures FlowMapOf(FlowMapText(entries)) == Map(FlowPairs(FlowItems(Join(PairTexts(entries), ",")), []))
    ensures PairTexts(entries)[|entries| - 1] != ""
  {
    hide FlowEntry, PairTexts, PairText, Strip, FlowItems, Join, FlowPairs;
    PairTextAt(entries, 0);
    PairTextAt(entries, |entries| - 1);
    InsideOf(PairTexts(entries), '{', '}');
  }

  lemma SplitPairsRead(entries: seq<Entry>)
    requires entries != [] && FlowEntries(entries) && DistinctKeys(entries)
    requires IsSplit(PairTexts(entries)) && NoColons(entries)
    ensures FlowMapOf(FlowMapText(entries)) == Map(entries)
    ensures FlowItems(Join(PairTexts(entries), ",")) == PairTexts(entries)
  {
    hide FlowEntry, PairTexts, PairText, FlowItems, Join, FlowPairs, DistinctKeys, NoTopComma, DepthOf, FlowMapText,
         FlowMapOf;
    FlowMapPairs(entries);
    SplitIsExact(PairTexts(entries));
    assert entries[..0] == [];
    FlowPairsRead(entries, 0, []);
    assert PairTexts(entries)[0..] == PairTexts(entries);
  }

  // ---------------------------------------------------------------- what a mapping can hold

  /** What the parser can read as an entry of a flow mapping: its key has no colon, and the key, a
      colon and the string have no comma outside brackets. */
  predicate IsReadable(e: Entry) {
    ':' !in e.key && NoTopComma(e.key + ":" + StringOf(e.val))
  }

  function StringOf(v: Value): string {
    if v.Str? then v.s else ""
  }

  predicate AllReadable(entries: seq<Entry>) {
    forall i :: 0 <= i < |entries| ==> IsReadable(entries[i])
  }

  /** Text without brackets and commas may be put in or left out. */
  lemma FlatBetween(a: string, f: string, b: string)
    requires IsFlat(f)
    ensures NoTopComma(a + f + b) <==> NoTopComma(a + b)
  {
    hide DepthOf;
    FlatDepth(f);
    DepthAppend(a, f);
    var s, t := a + f + b, a + b;
    forall i | 0 <= i < |t| && t[i] == ','
      ensures var j := if i < |a| then i else i + |f|; s[j] == ',' && DepthOf(s[..j]) == DepthOf(t[..i])
    {
      if i < |a| {
        assert s[..i] == t[..i];
      } else {
        SameDepth(a, f, b, i - |a|);
      }
    }
    forall j | 0 <= j < |s| && s[j] == ','
      ensures var i := if j < |a| then j else j - |f|;
              0 <= i < |t| && t[i] == ',' && DepthOf(s[..j]) == DepthOf(t[..i])
    {
      if j < |a| {
        assert t[..j] == s[..j];
      } else {
        CommaIsAfter(a, f, b, j);
        SameDepth(a, f, b, j - |a| - |f|);
      }
    }
  }

  lemma CommaIsAfter(a: string, f: string, b: string, j: nat)
    requires IsFlat(f) && |a| <= j < |a + f + b| && (a + f + b)[j] == ','
    ensures j >= |a| + |f|
  {
  }

  lemma SameDepth(a: string, f: string, b: string, k: nat)
    requires DepthOf(a + f) == DepthOf(a) && k <= |b|
    ensures DepthOf((a + f + b)[..|a| + |f| + k]) == DepthOf((a + b)[..|a| + k])
  {
    hide DepthOf;
    assert (a + f + b)[..|a| + |f| + k] == a + f + b[..k];
    assert (a + b)[..|a| + k] == a + b[..k];
    DepthAppend(a + f, b[..k]);
    DepthAppend(a, b[..k]);
  }

  lemma BeginningIsUncut(a: string, b: string)
    requires NoTopComma(a + b)
    ensures NoTopComma(a)
  {
    hide DepthOf;
    NothingDeep();
    assert "" + a + b == a + b;
    PartIsUncut("", a, b);
  }

  lemma StripParts(s: string) returns (f: string, g: string)
    ensures s == f + Strip(s) + g && IsFlat(f) && IsFlat(g)
  {
    hide Lead, RStrip;
    LeadMeaning(s);
    f := s[..Lead(s)];
    g := RStripParts(LStrip(s));
    assert s == f + LStrip(s);
  }

  lemma {:induction false} RStripParts(s: string) returns (g: string)
    ensures s == RStrip(s) + g && IsFlat(g)
  {
    g := "";
    if s != "" && IsSpace(s[|s| - 1]) {
      var h := RStripParts(s[..|s| - 1]);
      g := h + [s[|s| - 1]];
      assert s == RStrip(s) + g;
    }
  }

  lemma NothingIsFlat()
    ensures IsFlat("")
  {
  }

  lemma Cons(s: string, f: string, part: string, g: string)
    requires s != "" && s[1..] == f + part + g
    ensures s == [s[0]] + f + part + g
  {
    assert s == [s[0]] + s[1..];
  }

  lemma Snoc(s: string, f: string, part: string, g: string)
    requires s != "" && s[..|s| - 1] == f + part + g
    ensures s == f + part + (g + [s[|s| - 1]])
  {
    assert s == s[..|s| - 1] + [s[|s| - 1]];
  }

  lemma FlatAround(c: char, f: string)
    requires c in "'\"" && IsFlat(f)
    ensures IsFlat([c] + f) && IsFlat(f + [c])
  {
  }

  lemma {:induction false} DropQuotesParts(s: string) returns (f: string, g: string)
    ensures s == f + DropQuotes(s) + g && IsFlat(f) && IsFlat(g)
  {
    hide DropQuotes, IsFlat;
    DropQuotesUnfolds(s);
    f, g := "", "";
    NothingIsFlat();
    if s != "" && s[0] in "'\"" {
      f, g := DropQuotesParts(s[1..]);
      Cons(s, f, DropQuotes(s), g);
      FlatAround(s[0], f);
      f := [s[0]] + f;
    } else if s != "" && s[|s| - 1] in "'\"" {
      f, g := DropQuotesParts(s[..|s| - 1]);
      Snoc(s, f, DropQuotes(s), g);
      FlatAround(s[|s| - 1], g);
      g := g + [s[|s| - 1]];
    }
  }

  /** A string stands in the text it is read from, after text that is flat. */
  lemma ScalarParts(text: string) returns (f: string, g: string)
    requires ScalarOf(text).Str?
    ensures text == f + ScalarOf(text).s + g && IsFlat(f)
  {
    hide Strip, ScalarOf, IsQuoted, Inner, CommentFrom;
    var c := CommentFrom(text, 0);
    var y := WithoutComment(text);
    if y == "" {
      EmptyIsNull(text);
    }
    StringRead(text);
    var a, b := StripParts(text[..c]);
    assert text == text[..c] + text[c..];
    if IsQuoted(y) {
      var q, r := InnerParts(y);
      f, g := a + q, r + b + text[c..];
      assert text == a + (q + Inner(y) + r) + b + text[c..] == f + Inner(y) + g;
    } else {
      f, g := a, b + text[c..];
      assert text == a + y + b + text[c..] == f + y + g;
    }
  }

  lemma EmptyIsNull(text: string)
    requires WithoutComment(text) == ""
    ensures ScalarOf(text).Null?
  {
    hide WithoutComment;
  }

  lemma QuotedStart(y: string)
    requires IsQuoted(y)
    ensures y != "" && (y[0] == '\'' || y[0] == '"')
  {
    assert y != "";
    assert y[..1] == [y[0]];
  }

  lemma InnerParts(y: string) returns (q: string, r: string)
    requires IsQuoted(y)
    ensures y == q + Inner(y) + r && IsFlat(q)
  {
    hide IsQuoted;
    QuotedStart(y);
    q, r := [y[0]], if |y| < 2 then "" else [y[|y| - 1]];
  }

  lemma PartHasNoColon(s: string, a: string, part: string, b: string)
    requires s == a + part + b && ':' !in s
    ensures ':' !in part
  {
  }

  lemma HeadParts(head: string) returns (f: string, g: string)
    ensures head == f + DropQuotes(Strip(head)) + g && IsFlat(f) && IsFlat(g)
  {
    hide Strip, DropQuotes, IsFlat;
    var f1, g1 := StripParts(head);
    var f2, g2 := DropQuotesParts(Strip(head));
    f, g := f1 + f2, g2 + g1;
    var key := DropQuotes(Strip(head));
    assert head == f1 + (f2 + key + g2) + g1 == f + key + g;
    FlatAppend(f1, f2);
    FlatAppend(g2, g1);
  }

  lemma FlatAppend(f: string, g: string)
    requires IsFlat(f) && IsFlat(g)
    ensures IsFlat(f + g)
  {
  }

  lemma TailParts(tail: string) returns (f: string, g: string)
    requires ScalarOf(Strip(tail)).Str?
    ensures tail == f + ScalarOf(Strip(tail)).s + g && IsFlat(f)
  {
    hide Strip, ScalarOf, IsFlat;
    var f1, g1 := StripParts(tail);
    var f2, g2 := ScalarParts(Strip(tail));
    f, g := f1 + f2, g2 + g1;
    var s := ScalarOf(Strip(tail)).s;
    assert tail == f1 + (f2 + s + g2) + g1 == f + s + g;
    FlatAppend(f1, f2);
  }

  lemma AroundColon(head: string, tail: string, c: string, s: string, g: string)
    requires tail == c + s + g
    ensures head + ":" + tail == head + ":" + c + s + g
  {
  }

  /** The entry that one item between commas is read as. */
  lemma PairIsReadable(p: string)
    requires NoTopComma(p) && Find(p, ':').Some?
    ensures var i := Find(p, ':').value;
            IsReadable(Entry(DropQuotes(Strip(p[..i])), ScalarOf(Strip(p[i + 1..]))))
  {
    hide NoTopComma, DepthOf, Strip, DropQuotes, ScalarOf, IsFlat;
    FindMeaning(p, ':');
    var i := Find(p, ':').value;
    var head, tail := p[..i], p[i + 1..];
    assert p == head + ":" + tail;
    var key, val := DropQuotes(Strip(head)), ScalarOf(Strip(tail));
    var a, b := HeadParts(head);
    PartHasNoColon(head, a, key, b);
    var c, g := "", tail;
    NothingIsFlat();
    if val.Str? {
      c, g := TailParts(tail);
    }
    AroundColon(head, tail, c, StringOf(val), g);
    ReadableParts(a, key, b, c, StringOf(val), g);
  }

  lemma ReadableParts(a: string, key: string, b: string, c: string, s: string, rest: string)
    requires IsFlat(a) && IsFlat(b) && IsFlat(c)
    ensures NoTopComma(a + key + b + ":" + c + s + rest) ==> NoTopComma(key + ":" + s)
    ensures NoTopComma(key + ":" + s) ==> NoTopComma(a + key + b + ":" + c + s)
  {
    hide NoTopComma, IsFlat;
    if NoTopComma(a + key + b + ":" + c + s + rest) {
      BeginningIsUncut(a + key + b + ":" + c + s, rest);
    }
    FlatBetween("", a, key + b + ":" + c + s);
    assert "" + a + (key + b + ":" + c + s) == a + key + b + ":" + c + s;
    assert "" + (key + b + ":" + c + s) == key + b + (":" + c + s) == key + b + ":" + c + s;
    FlatBetween(key, b, ":" + c + s);
    assert key + (":" + c + s) == key + ":" + c + s;
    FlatBetween(key + ":", c, s);
  }

  lemma {:induction false} SetIsReadable(entries: seq<Entry>, e: Entry)
    requires AllReadable(entries) && IsReadable(e)
    ensures AllReadable(DictSet(entries, e.key, e.val))
  {
    hide IsReadable;
    if entries != [] && entries[0].key != e.key {
      SetIsReadable(entries[1..], e);
    }
  }

  /** Every entry read from items without top-level commas is readable. */
  lemma {:induction false} PairsAreReadable(pairs: seq<string>, acc: seq<Entry>)
    requires (forall i :: 0 <= i < |pairs| ==> NoTopComma(pairs[i])) && AllReadable(acc)
    ensures AllReadable(FlowPairs(pairs, acc))
    decreases |pairs|
  {
    hide NoTopComma, AllReadable, IsReadable, Strip, DropQuotes, ScalarOf, DictSet;
    if pairs != [] {
      var p := pairs[0];
      if Find(p, ':').Some? {
        var i := Find(p, ':').value;
        var e := Entry(DropQuotes(Strip(p[..i])), ScalarOf(Strip(p[i + 1..])));
        PairIsReadable(p);
        SetIsReadable(acc, e);
        PairsAreReadable(pairs[1..], DictSet(acc, e.key, e.val));
      } else {
        PairsAreReadable(pairs[1..], acc);
      }
    }
  }

  /** The text of a pair has no comma outside brackets exactly when its entry, key aside, is one that
      can be read. */
  lemma PairTextKeeps(e: Entry, n: nat)
    requires FlowEntry(e)
    ensures NoTopComma(Spaces(n) + PairText(e)) <==> NoTopComma(e.key + ":" + StringOf(e.val))
  {
    hide NoTopComma, DepthOf, AtomText, KeyText, PrintableKey, FlowAtom, IsFlat;
    var q, b := KeyParts(e.key);
    var c, r := AtomParts(e.val);
    var t, a := Spaces(n) + PairText(e), Spaces(n) + q;
    var s := StringOf(e.val);
    assert IsFlat(a) && IsFlat(" " + c) by { FlatPads(n, q, c); }
    assert t == a + e.key + b + ":" + (" " + c) + s + r;
    ReadableParts(a, e.key, b, " " + c, s, r);
    FlatBetween(a + e.key + b + ":" + (" " + c) + s, r, "");
    assert t + "" == t && a + e.key + b + ":" + (" " + c) + s + "" == a + e.key + b + ":" + (" " + c) + s;
  }

  lemma FlatPads(n: nat, q: string, c: string)
    requires IsFlat(q) && IsFlat(c)
    ensures IsFlat(Spaces(n) + q) && IsFlat(" " + c)
  {
  }

  lemma KeyParts(k: string) returns (q: string, r: string)
    ensures KeyText(k) == q + k + r && IsFlat(q) && IsFlat(r)
  {
    hide IsWordKey, QuoteChar;
    q, r := "", "";
    if !IsWordKey(k) {
      q, r := [QuoteChar(k)], [QuoteChar(k)];
      assert QuoteChar(k) == '\'' || QuoteChar(k) == '"' by { QuoteIsQuote(k); }
    }
  }

  lemma QuoteIsQuote(s: string)
    ensures QuoteChar(s) == '\'' || QuoteChar(s) == '"'
  {
    hide Keeps;
  }

  lemma AtomParts(v: Value) returns (c: string, r: string)
    requires FlowAtom(v)
    ensures AtomText(v) == c + StringOf(v) + r && IsFlat(c) && IsFlat(r)
  {
    hide Printable, IntText, QuoteChar;
    if v.Str? {
      QuoteIsQuote(v.s);
      c, r := [QuoteChar(v.s)], [QuoteChar(v.s)];
    } else {
      AtomIsFlat(v);
      c, r := AtomText(v), "";
    }
  }

  /** What a printed flow mapping that reads back must be: no key has a colon, and no pair a comma
      outside brackets. */
  lemma FlowMapReadsOnlyIf(entries: seq<Entry>)
    requires entries != [] && FlowEntries(entries)
    requires FlowMapOf(FlowMapText(entries)) == Map(entries)
    ensures NoColons(entries)
    ensures forall i :: 0 <= i < |entries| ==> NoTopComma(PairTexts(entries)[i])
  {
    hide FlowEntry, PairTexts, PairText, FlowItems, FlowPairs, NoTopComma, DepthOf, FlowMapText, FlowMapOf, Join;
    var texts := PairTexts(entries);
    FlowMapPairs(entries);
    FlowItemsMeaning(Join(texts, ","));
    PairsAreReadable(FlowItems(Join(texts, ",")), []);
    forall i | 0 <= i < |entries| ensures NoTopComma(texts[i]) {
      assert IsReadable(entries[i]);
      PairTextAt(entries, i);
      PairTextKeeps(entries[i], if i == 0 then 0 else 1);
    }
  }

  // ---------------------------------------------------------------- one item for each entry

  lemma CommaIsText(x: string)
    requires ',' in WithoutComment(x)
    ensures ScalarOf(x).Str?
  {
    hide WithoutComment, IsQuoted, IsFloatText, DecimalOf;
    var y := WithoutComment(x);
    var i :| 0 <= i < |y| && y[i] == ',';
    assert Lower(y)[i] == ',';
    if IsFloatText(y) {
      FloatChars(y);
    }
    if IsDigitPart(DropSign(y)) {
      DigitPartChars(DropSign(y));
      SignedChars(y);
    }
  }

  /** A comment after a text without `#` leaves the text. */
  lemma CommaIsKept(a: string, w: string)
    requires Trimmed(a) && '#' !in a
    ensures ',' in WithoutComment(a + "," + w)
  {
    hide QuoteAt, RStrip;
    var x := a + "," + w;
    var c := CommentFrom(x, 0);
    CommentFromMeaning(x, 0);
    assert x[|a|] == ',' && forall k :: 0 <= k < |a| ==> x[k] == a[k];
    assert c > |a|;
    var t := x[..c];
    assert Lead(t) == 0 && LStrip(t) == t;
    RStripKeeps(t, |a|);
    assert RStrip(t)[..|a| + 1][|a|] == ',';
  }

  lemma EmptyQuotesGoOn(q: char, w: string)
    requires q == '\'' || q == '"'
    ensures ScalarOf([q] + [q] + "," + w) != Str("")
  {
    hide WithoutComment, ScalarOf;
    var x := [q] + [q] + "," + w;
    Uncommenting(x, q);
    assert x[1] == q && x[2] == ',';
    if ScalarOf(x) == Str("") {
      StringRead(x);
    }
  }

  lemma StringGoesOn(s: string, w: string)
    requires Quotable(s)
    ensures ScalarOf(Quoted(s) + "," + w) != Str(s)
  {
    hide ScalarOf, WithoutComment, Keeps, OneLine, QuoteChar;
    var q := QuoteChar(s);
    QuoteIsQuote(s);
    var x := Quoted(s) + "," + w;
    if s == "" {
      assert x == [q] + [q] + "," + w;
      EmptyQuotesGoOn(q, w);
    } else {
      assert x[..|s|] == Quoted(s)[..|s|] && x[|Quoted(s)|] == ',';
      Uncommenting(x, q);
      if ScalarOf(x) == Str(s) {
        ReadsAsQuoted(s, x);
      }
    }
  }

  lemma NoHashInAtom(v: Value)
    requires FlowAtom(v) && !v.Str?
    ensures '#' !in AtomText(v)
  {
    hide IntText, IsFloatText;
    match v
    case Int(n) => IntTextReads(n);
    case Float(text) => FloatChars(text);
    case Null =>
    case Bool(_) =>
  }

  lemma StripGoesOn(a: string, w: string) returns (w': string)
    requires Trimmed(a)
    ensures Strip(" " + (a + "," + w)) == a + "," + w'
  {
    hide RStrip;
    var x := a + "," + w;
    StripOfPadded(" ", x);
    assert Lead(x) == 0 && LStrip(x) == x;
    RStripKeeps(x, |a|);
    assert x[..|a| + 1] == a + ",";
    w' := RStrip(x)[|a| + 1..];
    assert RStrip(x) == RStrip(x)[..|a| + 1] + w';
  }

  /** No text that goes on with a comma after an atom is read as the atom. */
  lemma AtomGoesOn(v: Value, w: string)
    requires FlowAtom(v)
    ensures ScalarOf(Strip(" " + (AtomText(v) + "," + w))) != v
  {
    hide ScalarOf, WithoutComment, Strip, Keeps, OneLine, AtomText, OpensDashMapping;
    assert Trimmed(AtomText(v)) by { AtomReads(v); }
    var more := StripGoesOn(AtomText(v), w);
    if v.Str? {
      StringText(v.s);
      StringGoesOn(v.s, more);
    } else {
      NoHashInAtom(v);
      CommaIsKept(AtomText(v), more);
      CommaIsText(AtomText(v) + "," + more);
    }
  }

  /** How one item between commas becomes an entry. */
  predicate PairReadAs(item: string, e: Entry) {
    match Find(item, ':')
    case None => false
    case Some(i) => DropQuotes(Strip(item[..i])) == e.key && ScalarOf(Strip(item[i + 1..])) == e.val
  }

  predicate PairsReadAs(items: seq<string>, entries: seq<Entry>) {
    |items| == |entries| && forall i :: 0 <= i < |items| ==> PairReadAs(items[i], entries[i])
  }

  /** A mapping has no more entries than it has items; with as many, each item is one entry. */
  lemma {:induction false} EachItemIsRead(items: seq<string>, acc: seq<Entry>)
    ensures var r := FlowPairs(items, acc);
            && |acc| <= |r| <= |acc| + |items|
            && (|r| == |acc| + |items| ==> acc <= r && PairsReadAs(items, r[|acc|..]))
    decreases |items|
  {
    hide PairReadAs, Strip, ScalarOf, DropQuotes, DictSet;
    if items != [] {
      var r := FlowPairs(items, acc);
      if Find(items[0], ':').None? {
        EachItemIsRead(items[1..], acc);
      } else {
        var e := PairIsRead(items[0]);
        var next := DictSet(acc, e.key, e.val);
        assert r == FlowPairs(items[1..], next);
        SetGrows(acc, e);
        EachItemIsRead(items[1..], next);
        if |r| == |acc| + |items| {
          assert r[|acc|] == next[|acc|] == e;
          assert r[|acc|..] == [e] + r[|next|..];
          assert items == [items[0]] + items[1..];
        }
      }
    }
  }

  lemma PairIsRead(item: string) returns (e: Entry)
    requires Find(item, ':').Some?
    ensures PairReadAs(item, e)
    ensures var i := Find(item, ':').value;
            e == Entry(DropQuotes(Strip(item[..i])), ScalarOf(Strip(item[i + 1..])))
  {
    hide Strip, ScalarOf, DropQuotes;
    var i := Find(item, ':').value;
    e := Entry(DropQuotes(Strip(item[..i])), ScalarOf(Strip(item[i + 1..])));
  }

  lemma {:induction false} SetGrows(acc: seq<Entry>, e: Entry)
    ensures var r := DictSet(acc, e.key, e.val); |acc| <= |r| <= |acc| + 1 && (|r| > |acc| ==> r == acc + [e])
  {
    if acc != [] && acc[0].key != e.key {
      SetGrows(acc[1..], e);
    }
  }

  predicate IsPairText(t: string, e: Entry) {
    FlowEntry(e) && ':' !in e.key && (t == Spaces(0) + PairText(e) || t == Spaces(1) + PairText(e))
  }

  /** An item that goes on after a pair is not read as that pair. */
  lemma PairGoesOn(e: Entry, t: string, w: string)
    requires IsPairText(t, e)
    ensures !PairReadAs(t + "," + w, e)
  {
    hide Strip, ScalarOf, DropQuotes, AtomText, KeyText, FlowEntry, Find;
    EntryAtom(e);
    var n := if t == Spaces(0) + PairText(e) then 0 else 1;
    var k, a, i := KeyText(e.key), AtomText(e.val), n + |KeyText(e.key)|;
    PairReads(e, n);
    PairShape(Spaces(n), k, a);
    assert t == Spaces(n) + (k + ": " + a);
    FindMeaning(t, ':');
    var u := t + "," + w;
    GoesOnShape(t, i, " " + a, w);
    FindFirst(u, ':', i);
    assert u[i + 1..] == " " + (a + "," + w);
    AtomGoesOn(e.val, w);
  }

  lemma GoesOnShape(t: string, i: nat, a: string, w: string)
    requires i < |t| && t[i + 1..] == a
    ensures var u := t + "," + w; u[..i] == t[..i] && u[i] == t[i] && u[i + 1..] == a + "," + w
  {
  }

  lemma EntryAtom(e: Entry)
    requires FlowEntry(e)
    ensures FlowAtom(e.val)
  {
    hide FlowAtom, PrintableKey;
  }

  lemma CommaIsInside(t: string, u: string)
    requires NoTopComma(t) && |u| < |t| && t[|u|] == ',' && t[..|u|] == u
    ensures DepthOf(u) != 0
  {
  }

  lemma CutPairIsRight(t: string, e: Entry, rest: string, u: string)
    requires IsPairText(t, e) && NoTopComma(t) && u + "," <= t + "," + rest
    requires DepthOf(u) == 0 && PairReadAs(u, e)
    ensures DepthOf(t) == 0
  {
    hide IsPairText, PairReadAs, DepthOf, NoTopComma;
    var text := t + "," + rest;
    assert text[|u|] == (u + ",")[|u|] == ',' && u == text[..|u|];
    if |u| < |t| {
      assert t[|u|] == ',' && t[..|u|] == u;
      CommaIsInside(t, u);
    } else if |u| > |t| {
      var w := u[|t| + 1..];
      assert u == t + "," + w;
      PairGoesOn(e, t, w);
    } else {
      assert u == t;
    }
  }

  lemma {:induction false} PairsAreCutRight(texts: seq<string>, entries: seq<Entry>)
    requires entries != [] && |texts| == |entries| && PairsReadAs(FlowItems(Join(texts, ",")), entries)
    requires forall i :: 0 <= i < |entries| ==> IsPairText(texts[i], entries[i]) && NoTopComma(texts[i])
    ensures IsSplit(texts)
    decreases |entries|
  {
    hide NoTopComma, DepthOf, IsPairText, FlowItems, PairReadAs;
    if |entries| > 1 {
      var t, rest := texts[0], Join(texts[1..], ",");
      var text := Join(texts, ",");
      var split := FlowItems(text);
      FlowItemsMeaning(text);
      assert text == t + "," + rest;
      JoinCons(split[0], split[1..], ",");
      assert split == [split[0]] + split[1..];
      FirstIsPrefix(split[0], Join(split[1..], ","), text);
      CutPairIsRight(t, entries[0], rest, split[0]);
      FirstItem(t, rest);
      assert split[1..] == FlowItems(rest);
      assert forall i :: 0 <= i < |entries| - 1 ==> split[1..][i] == split[i + 1];
      PairsAreCutRight(texts[1..], entries[1..]);
      SplitCons(t, texts[1..]);
      assert [t] + texts[1..] == texts;
    }
  }

  /** `{a: 1, b: 2}` reads back from no more items than it has entries exactly when no key has a
      colon, no pair a comma outside brackets, and all but the last close the brackets they open. */
  lemma FlowMapReads(entries: seq<Entry>)
    requires entries != [] && FlowEntries(entries) && DistinctKeys(entries)
    ensures && FlowMapOf(FlowMapText(entries)) == Map(entries)
            && |FlowItems(Join(PairTexts(entries), ","))| <= |entries|
            <==> IsSplit(PairTexts(entries)) && NoColons(entries)
  {
    hide FlowEntry, PairTexts, PairText, FlowItems, FlowPairs, NoTopComma, DepthOf, FlowMapText, FlowMapOf, Join,
         IsPairText, PairReadAs;
    var texts := PairTexts(entries);
    var items := FlowItems(Join(texts, ","));
    if IsSplit(texts) && NoColons(entries) {
      SplitPairsRead(entries);
    }
    if FlowMapOf(FlowMapText(entries)) == Map(entries) && |items| <= |entries| {
      FlowMapPairs(entries);
      FlowMapReadsOnlyIf(entries);
      EachItemIsRead(items, []);
      assert entries[0..] == entries;
      forall i | 0 <= i < |entries| ensures IsPairText(texts[i], entries[i]) {
        PairTextAt(entries, i);
        assert IsPairText(texts[i], entries[i]) by { PairTextIs(texts[i], entries[i]); }
      }
      PairsAreCutRight(texts, entries);
    }
  }

  lemma PairTextIs(t: string, e: Entry)
    requires FlowEntry(e) && ':' !in e.key && (t == Spaces(0) + PairText(e) || t == Spaces(1) + PairText(e))
    ensures IsPairText(t, e)
  {
    hide FlowEntry, PairText;
  }

  // ---------------------------------------------------------------- without commas

  lemma {:induction false} ItemsAreFew(text: string, depth: int, current: string)
    ensures |FlowSplit(text, depth, current)| <= |Split(text, ',')|
  {
    if text != "" {
      ItemsAreFew(text[1..], if IsOpener(text[0]) then depth + 1 else if IsCloser(text[0]) then depth - 1 else depth,
                  if text[0] == ',' && depth == 0 then "" else current + [text[0]]);
    }
  }

  /** Where no key and no string has a comma, a printed flow mapping reads back exactly when no key
      has a colon and all pairs but the last close the brackets they open. */
  lemma CommaFreeFlowMapReads(entries: seq<Entry>)
    requires entries != [] && FlowEntries(entries) && DistinctKeys(entries)
    requires forall i :: 0 <= i < |entries| ==> ',' !in PairTexts(entries)[i]
    ensures FlowMapOf(FlowMapText(entries)) == Map(entries) <==>
              && NoColons(entries)
              && forall i :: 0 <= i < |entries| - 1 ==> DepthOf(PairTexts(entries)[i]) == 0
  {
    hide FlowEntry, PairTexts, FlowMapText, FlowMapOf, Join, DepthOf, FlowSplit, Split;
    var texts := PairTexts(entries);
    ItemsAreFew(Join(texts, ","), 0, "");
    SplitJoin(texts, ',');
    FlowMapReads(entries);
  }

  // ---------------------------------------------------------------- matched brackets

  /** The key and the value's text close the brackets they open. */
  predicate IsBalanced(e: Entry)
    requires FlowEntry(e)
  {
    DepthOf(e.key) == 0 && DepthOf(AtomText(e.val)) == 0
  }

  predicate CanBeRead(e: Entry)
    requires FlowEntry(e)
  {
    ':' !in e.key && NoTopComma(e.key) && NoTopComma(AtomText(e.val))
  }

  lemma AtomKeeps(v: Value)
    requires FlowAtom(v)
    ensures DepthOf(AtomText(v)) == DepthOf(StringOf(v)) && (NoTopComma(AtomText(v)) <==> NoTopComma(StringOf(v)))
  {
    hide NoTopComma, DepthOf, FlowAtom, AtomText;
    var c, r := AtomParts(v);
    var s := StringOf(v);
    FlatDepth(c);
    FlatDepth(r);
    DepthAppend(c, s);
    DepthAppend(c + s, r);
    FlatBetween("", c, s + r);
    FlatBetween(s, r, "");
    assert "" + c + (s + r) == c + s + r && "" + (s + r) == s + r == s + r + "" && s + "" == s;
  }

  /** A key that closes its brackets can be told apart from its value. */
  lemma ReadableCanBeRead(e: Entry)
    requires FlowEntry(e) && IsBalanced(e)
    ensures IsReadable(e) <==> CanBeRead(e)
  {
    hide NoTopComma, DepthOf, FlowEntry, FlowAtom, AtomText;
    assert FlowAtom(e.val) by { EntryAtom(e); }
    AtomKeeps(e.val);
    var head, s := e.key + ":", StringOf(e.val);
    assert IsFlat(":");
    FlatDepth(":");
    DepthAppend(e.key, ":");
    FlatBetween(e.key, ":", "");
    assert head + "" == head && e.key + "" == e.key;
    if NoTopComma(head + s) {
      BeginningIsUncut(head, s);
      assert head + s + "" == head + s;
      PartIsUncut(head, s, "");
    }
    if NoTopComma(head) && NoTopComma(s) {
      JoinUncut(head, s);
    }
  }

  lemma BalancedPair(e: Entry, n: nat)
    requires FlowEntry(e) && IsBalanced(e) && CanBeRead(e)
    ensures NoTopComma(Spaces(n) + PairText(e)) && DepthOf(Spaces(n) + PairText(e)) == 0
  {
    hide NoTopComma, DepthOf, FlowEntry, AtomText, KeyText, CanBeRead, IsFlat;
    EntryAtom(e);
    ReadableCanBeRead(e);
    PairTextKeeps(e, n);
    var q, r := KeyParts(e.key);
    assert IsFlat(Spaces(n) + q) && IsFlat(r + ": ") by { FlatEnds(n, q, r); }
    FlatDepth(Spaces(n) + q);
    FlatDepth(r + ": ");
    DepthAppend(Spaces(n) + q, e.key);
    DepthAppend(Spaces(n) + q + e.key, r + ": ");
    DepthAppend(Spaces(n) + q + e.key + (r + ": "), AtomText(e.val));
    assert Spaces(n) + PairText(e) == Spaces(n) + q + e.key + (r + ": ") + AtomText(e.val);
  }

  lemma FlatEnds(n: nat, q: string, r: string)
    requires IsFlat(q) && IsFlat(r)
    ensures IsFlat(Spaces(n) + q) && IsFlat(r + ": ")
  {
  }

  /** When all brackets in keys and values are matched, a printed flow mapping reads back exactly
      when no key has a colon and no key and no value a comma outside brackets. */
  lemma BalancedFlowMapReads(entries: seq<Entry>)
    requires entries != [] && FlowEntries(entries) && DistinctKeys(entries)
    requires forall i :: 0 <= i < |entries| ==> IsBalanced(entries[i])
    ensures FlowMapOf(FlowMapText(entries)) == Map(entries) <==>
              forall i :: 0 <= i < |entries| ==> CanBeRead(entries[i])
  {
    hide FlowEntry, PairTexts, PairText, FlowItems, FlowPairs, DistinctKeys, NoTopComma, DepthOf, FlowMapText,
         FlowMapOf, IsBalanced, AtomText, IsReadable, Join;
    var texts := PairTexts(entries);
    FlowMapPairs(entries);
    if FlowMapOf(FlowMapText(entries)) == Map(entries) {
      FlowItemsMeaning(Join(texts, ","));
      PairsAreReadable(FlowItems(Join(texts, ",")), []);
      forall i | 0 <= i < |entries| ensures CanBeRead(entries[i]) {
        ReadableCanBeRead(entries[i]);
      }
    }
    if forall i :: 0 <= i < |entries| ==> CanBeRead(entries[i]) {
      forall i | 0 <= i < |entries| ensures NoTopComma(texts[i]) && DepthOf(texts[i]) == 0 {
        PairTextAt(entries, i);
        BalancedPair(entries[i], if i == 0 then 0 else 1);
      }
      FlowMapReads(entries);
    }
  }
}
