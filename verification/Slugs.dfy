/** Matching documentation slugs to operation names: camelCase names are cut into hyphenated
    lower-case slugs, and a slug finds its operation up to hyphens. */
module Slugs {
  import opened Text

  function WithoutPrefix(name: string): string {
    if StartsWith(name, "receive") then name[7..]
    else if StartsWith(name, "publish") then name[7..]
    else name
  }

  function UpperRun(s: string): (n: nat)
    ensures n <= |s|
    ensures s != "" && IsUpper(s[0]) ==> n > 0
  {
    if s != "" && IsUpper(s[0]) then 1 + UpperRun(s[1..]) else 0
  }

  /** A hyphen before a new word, unless it is the first. */
  function Gap(slug: string): string {
    if slug == "" then "" else "-"
  }

  /** The words of an upper-case run of n letters at the start of s: the last letter belongs to
      the next word when more text follows. */
  function RunWords(s: string, n: nat): string
    requires 0 < n <= |s|
  {
    if n > 1 && n < |s| then Lower(s[..n - 1]) + "-" + Lower(s[n - 1..n]) else Lower(s[..n])
  }

  function SlugFrom(s: string, slug: string): string {
    if s == "" then slug
    else if IsUpper(s[0]) then
      var n := UpperRun(s);
      SlugFrom(s[n..], slug + Gap(slug) + RunWords(s, n))
    else SlugFrom(s[1..], slug + [s[0]])
  }

  function SlugOf(name: string): string {
    SlugFrom(WithoutPrefix(name), "")
  }

  datatype Op = Op(slug: string, name: string)

  /** `slug_map[slug] = name`: an old slug keeps its place. */
  function SetOp(ops: seq<Op>, slug: string, name: string): seq<Op> {
    if ops == [] then [Op(slug, name)]
    else if ops[0].slug == slug then [Op(slug, name)] + ops[1..]
    else [ops[0]] + SetOp(ops[1..], slug, name)
  }

  function OpMapFrom(names: seq<string>, acc: seq<Op>): seq<Op> {
    if names == [] then acc else OpMapFrom(names[1..], SetOp(acc, SlugOf(names[0]), names[0]))
  }

  function Unhyphened(s: string): string {
    if s == "" then "" else (if s[0] == '-' then "" else [s[0]]) + Unhyphened(s[1..])
  }

  function FindSlug(ops: seq<Op>, slug: string): Option<string> {
    if ops == [] then None else if ops[0].slug == slug then Some(ops[0].name) else FindSlug(ops[1..], slug)
  }

  function FindUnhyphened(ops: seq<Op>, key: string): Option<string> {
    if ops == [] then None
    else if Unhyphened(ops[0].slug) == key then Some(ops[0].name)
    else FindUnhyphened(ops[1..], key)
  }

  function Matched(suffix: string, ops: seq<Op>): Option<string> {
    if FindSlug(ops, suffix).Some? then FindSlug(ops, suffix) else FindUnhyphened(ops, Unhyphened(suffix))
  }

  // ---------------------------------------------------------------- the loops

  lemma RunWordsAt(lower: string, i: nat, j: nat)
    requires i < j <= |lower|
    ensures RunWords(lower[i..], j - i)
         == if j - i > 1 && j < |lower| then Lower(lower[i..j - 1]) + "-" + Lower([lower[j - 1]])
            else Lower(lower[i..j])
  {
    var s := lower[i..];
    assert s[..j - i - 1] == lower[i..j - 1] && s[j - i - 1..j - i] == [lower[j - 1]] && s[..j - i] == lower[i..j];
  }

  method SlugLoop(lower: string) returns (slug: string)
    ensures slug == SlugFrom(lower, "")
  {
    hide RunWords, Lower;
    slug := "";
    var i := 0;
    assert lower[0..] == lower;
    while i < |lower|
      invariant 0 <= i <= |lower| && SlugFrom(lower[i..], slug) == SlugFrom(lower, "")
    {
      ghost var s := lower[i..];
      var ch := lower[i];
      if IsUpper(ch) {
        var j := i;
        while j < |lower| && IsUpper(lower[j])
          invariant i <= j <= |lower| && UpperRun(s) == j - i + UpperRun(lower[j..])
        {
          assert lower[j..][1..] == lower[j + 1..];
          j := j + 1;
        }
        assert UpperRun(s) == j - i;
        assert s[j - i..] == lower[j..];
        var words: string;
        if j - i > 1 && j < |lower| {
          words := Lower(lower[i..j - 1]) + "-" + Lower([lower[j - 1]]);
        } else {
          words := Lower(lower[i..j]);
        }
        RunWordsAt(lower, i, j);
        slug := slug + (if slug != "" then "-" else "") + words;
        i := j;
      } else {
        assert s[1..] == lower[i + 1..];
        slug := slug + [lower[i]];
        i := i + 1;
      }
    }
    assert lower[i..] == "";
  }

  method BuildBmsOpMap(names: seq<string>) returns (ops: seq<Op>)
    ensures ops == OpMapFrom(names, [])
  {
    ops := [];
    for i := 0 to |names|
      invariant OpMapFrom(names[i..], ops) == OpMapFrom(names, [])
    {
      assert names[i..][1..] == names[i + 1..];
      var slug := SlugLoop(WithoutPrefix(names[i]));
      ops := SetOp(ops, slug, names[i]);
    }
  }

  method MatchBmsOperation(suffix: string, ops: seq<Op>) returns (r: Option<string>)
    ensures r == Matched(suffix, ops)
  {
    if FindSlug(ops, suffix).Some? {
      return FindSlug(ops, suffix);
    }
    var nohyphen := Unhyphened(suffix);
    for i := 0 to |ops|
      invariant FindUnhyphened(ops[i..], nohyphen) == FindUnhyphened(ops, nohyphen)
    {
      assert ops[i..][1..] == ops[i + 1..];
      if Unhyphened(ops[i].slug) == nohyphen {
        return Some(ops[i].name);
      }
    }
    r := None;
  }

  // ---------------------------------------------------------------- what a slug keeps

  lemma {:induction false} UnhyphenedAppend(a: string, b: string)
    ensures Unhyphened(a + b) == Unhyphened(a) + Unhyphened(b)
  {
    if a == "" {
      assert a + b == b;
    } else {
      assert (a + b)[1..] == a[1..] + b;
      UnhyphenedAppend(a[1..], b);
    }
  }

  lemma {:induction false} UnhyphenedLower(s: string)
    ensures Unhyphened(Lower(s)) == Lower(Unhyphened(s))
  {
    if s != "" {
      UnhyphenedLower(s[1..]);
      assert Lower(s)[1..] == Lower(s[1..]);
      LowerAppend(if s[0] == '-' then "" else [s[0]], Unhyphened(s[1..]));
    }
  }

  lemma LowerAppend(a: string, b: string)
    ensures Lower(a + b) == Lower(a) + Lower(b)
  {
  }

  lemma UnhyphenedRun(s: string, n: nat)
    requires 0 < n <= |s|
    ensures Unhyphened(RunWords(s, n)) == Lower(Unhyphened(s[..n]))
  {
    if n > 1 && n < |s| {
      var a, b := s[..n - 1], s[n - 1..n];
      assert a + b == s[..n];
      UnhyphenedAppend(Lower(a) + "-", Lower(b));
      UnhyphenedAppend(Lower(a), "-");
      UnhyphenedLower(a);
      UnhyphenedLower(b);
      UnhyphenedAppend(a, b);
      LowerAppend(Unhyphened(a), Unhyphened(b));
    } else {
      UnhyphenedLower(s[..n]);
    }
  }

  lemma {:induction false} SlugKeepsLetters(s: string, slug: string)
    ensures Unhyphened(SlugFrom(s, slug)) == Unhyphened(slug) + Lower(Unhyphened(s))
    decreases |s|
  {
    hide RunWords, Unhyphened, Lower, Gap;
    if s == "" {
      assert Unhyphened("") == "" && Lower("") == "" by { NoLetters(); }
    } else {
      var n := if IsUpper(s[0]) then UpperRun(s) else 1;
      var added := if IsUpper(s[0]) then Gap(slug) + RunWords(s, n) else [s[0]];
      if IsUpper(s[0]) {
        Concat(slug, Gap(slug), RunWords(s, n));
      }
      assert SlugFrom(s, slug) == SlugFrom(s[n..], slug + added);
      SlugKeepsLetters(s[n..], slug + added);
      UnhyphenedAppend(slug, added);
      assert s == s[..n] + s[n..];
      UnhyphenedAppend(s[..n], s[n..]);
      LowerAppend(Unhyphened(s[..n]), Unhyphened(s[n..]));
      AddedLetters(s, n, slug);
      Concat(Unhyphened(slug), Unhyphened(added), Lower(Unhyphened(s[n..])));
    }
  }

  lemma NoLetters()
    ensures Unhyphened("") == "" && Lower("") == ""
  {
  }

  lemma AddedLetters(s: string, n: nat, slug: string)
    requires s != "" && n == (if IsUpper(s[0]) then UpperRun(s) else 1)
    ensures Unhyphened(if IsUpper(s[0]) then Gap(slug) + RunWords(s, n) else [s[0]]) == Lower(Unhyphened(s[..n]))
  {
    hide RunWords;
    if IsUpper(s[0]) {
      UnhyphenedRun(s, n);
      UnhyphenedAppend(Gap(slug), RunWords(s, n));
    } else {
      assert s[..1] == [s[0]];
    }
  }

  /** No leading, trailing or doubled hyphen. */
  predicate IsCleanSlug(s: string) {
    && (s != "" ==> s[0] != '-' && s[|s| - 1] != '-')
    && forall i :: 0 <= i < |s| - 1 ==> s[i] != '-' || s[i + 1] != '-'
  }

  lemma CleanAppend(a: string, b: string)
    requires IsCleanSlug(a) && IsCleanSlug(b)
    ensures IsCleanSlug(a + b) && (b != "" ==> IsCleanSlug(a + Gap(a) + b))
  {
  }

  lemma CleanWord(s: string)
    requires '-' !in s
    ensures IsCleanSlug(Lower(s))
  {
  }

  lemma CleanRun(s: string, n: nat)
    requires 0 < n <= |s| && '-' !in s[..n]
    ensures IsCleanSlug(RunWords(s, n)) && RunWords(s, n) != ""
  {
    if n > 1 && n < |s| {
      assert forall c :: c in s[..n - 1] ==> c in s[..n];
      assert forall c :: c in s[n - 1..n] ==> c in s[..n];
      CleanWord(s[..n - 1]);
      CleanWord(s[n - 1..n]);
      CleanAppend(Lower(s[..n - 1]), Lower(s[n - 1..n]));
    } else {
      CleanWord(s[..n]);
    }
  }

  lemma {:induction false} SlugIsClean(s: string, slug: string)
    requires '-' !in s && IsCleanSlug(slug)
    ensures IsCleanSlug(SlugFrom(s, slug))
    decreases |s|
  {
    hide RunWords, IsCleanSlug;
    if s != "" {
      if IsUpper(s[0]) {
        var n := UpperRun(s);
        CleanRun(s, n);
        CleanAppend(slug, RunWords(s, n));
        SlugIsClean(s[n..], slug + Gap(slug) + RunWords(s, n));
      } else {
        assert IsCleanSlug([s[0]]) by { OneIsClean(s[0]); }
        CleanAppend(slug, [s[0]]);
        SlugIsClean(s[1..], slug + [s[0]]);
      }
    }
  }

  lemma OneIsClean(c: char)
    requires c != '-'
    ensures IsCleanSlug([c])
  {
  }

  /** For a hyphen-free name the slug is clean and its letters are the lower-cased name. */
  lemma SlugMeaning(name: string)
    ensures Unhyphened(SlugOf(name)) == Unhyphened(Lower(WithoutPrefix(name)))
    ensures '-' !in name ==> IsCleanSlug(SlugOf(name)) && Unhyphened(SlugOf(name)) == Lower(WithoutPrefix(name))
  {
    var s := WithoutPrefix(name);
    SlugKeepsLetters(s, "");
    UnhyphenedLower(s);
    assert "" + Lower(Unhyphened(s)) == Lower(Unhyphened(s));
    if '-' !in name {
      SlugIsClean(s, "");
      UnhyphenedPlain(s);
    }
  }

  lemma {:induction false} UnhyphenedPlain(s: string)
    requires '-' !in s
    ensures Unhyphened(s) == s
  {
    if s != "" {
      UnhyphenedPlain(s[1..]);
    }
  }

  /** A word starts at an upper-case letter inside the text that follows another character than an
      upper-case letter, or that is followed by one. */
  predicate StartsWord(s: string, k: nat)
    requires k < |s|
  {
    k > 0 && IsUpper(s[k]) && (!IsUpper(s[k - 1]) || (k + 1 < |s| && !IsUpper(s[k + 1])))
  }

  /** The text from position k in lower case, a hyphen before every word start. */
  function Words(s: string, k: nat): string
    requires k <= |s|
    decreases |s| - k
  {
    if k == |s| then "" else (if StartsWord(s, k) then "-" else "") + [LowerChar(s[k])] + Words(s, k + 1)
  }

  predicate AllUpper(s: string, i: nat, j: nat)
    requires i <= j <= |s|
  {
    forall k :: i <= k < j ==> IsUpper(s[k])
  }

  lemma {:induction false} UpperRunMeaning(s: string, i: nat)
    requires i <= |s|
    ensures var j := i + UpperRun(s[i..]); j <= |s| && AllUpper(s, i, j) && (j < |s| ==> !IsUpper(s[j]))
    decreases |s| - i
  {
    if i < |s| && IsUpper(s[i]) {
      assert s[i..][1..] == s[i + 1..];
      UpperRunMeaning(s, i + 1);
    }
  }

  lemma LowerCons(s: string, i: nat, j: nat)
    requires i < j <= |s|
    ensures Lower(s[i..j]) == [LowerChar(s[i])] + Lower(s[i + 1..j])
  {
    hide LowerChar;
  }

  /** No word starts inside a run, before its last letter. */
  lemma {:induction false} InsideRun(s: string, i: nat, j: nat)
    requires 0 < i <= j <= |s| && AllUpper(s, i - 1, j) && (j < |s| ==> IsUpper(s[j]))
    ensures Words(s, i) == Lower(s[i..j]) + Words(s, j)
    decreases j - i
  {
    hide LowerChar, Lower;
    if i < j {
      InsideRun(s, i + 1, j);
      assert !StartsWord(s, i);
      LowerCons(s, i, j);
    } else {
      LowerNothing(s[i..j]);
    }
  }

  lemma LowerNothing(s: string)
    requires s == ""
    ensures Lower(s) == ""
  {
  }

  /** A run whose last letter opens the next word. */
  lemma SplitRun(s: string, i: nat, j: nat)
    requires i + 1 < j < |s| && AllUpper(s, i, j) && !IsUpper(s[j])
    ensures [LowerChar(s[i])] + Words(s, i + 1) == Lower(s[i..j - 1]) + "-" + Lower([s[j - 1]]) + Words(s, j)
  {
    hide LowerChar, Lower, Words;
    InsideRun(s, i + 1, j - 1);
    assert StartsWord(s, j - 1);
    WordsUnfold(s, j - 1);
    LowerCons(s, i, j - 1);
    LowerOne(s[j - 1]);
    var a, b, c, rest := [LowerChar(s[i])], Lower(s[i + 1..j - 1]), [LowerChar(s[j - 1])], Words(s, j);
    assert a + (b + ("-" + (c + rest))) == a + b + "-" + c + rest;
  }

  /** A run that is one word. */
  lemma WholeRun(s: string, i: nat, j: nat)
    requires i < j <= |s| && (j == i + 1 || j == |s|) && AllUpper(s, i, j)
    ensures [LowerChar(s[i])] + Words(s, i + 1) == Lower(s[i..j]) + Words(s, j)
  {
    hide LowerChar, Lower, Words;
    LowerCons(s, i, j);
    if j == i + 1 {
      LowerNothing(s[j..j]);
    } else {
      InsideRun(s, i + 1, j);
      Concat([LowerChar(s[i])], Lower(s[i + 1..j]), Words(s, j));
    }
  }

  lemma LowerOne(c: char)
    ensures Lower([c]) == [LowerChar(c)]
  {
    hide LowerChar;
  }

  /** The words of the run i..j, after the hyphen or none that precedes it. */
  lemma RunIsWords(s: string, i: nat, j: nat)
    requires i < j <= |s| && AllUpper(s, i, j) && (j < |s| ==> !IsUpper(s[j])) && (i > 0 ==> !IsUpper(s[i - 1]))
    ensures Words(s, i) == (if i > 0 then "-" else "") + (RunWords(s[i..], j - i) + Words(s, j))
  {
    hide LowerChar, Lower, Words, RunWords;
    RunWordsAt(s, i, j);
    assert StartsWord(s, i) <==> i > 0;
    WordsUnfold(s, i);
    if j - i > 1 && j < |s| {
      SplitRun(s, i, j);
    } else {
      WholeRun(s, i, j);
    }
  }

  lemma WordsUnfold(s: string, k: nat)
    requires k < |s|
    ensures Words(s, k) == (if StartsWord(s, k) then "-" else "") + ([LowerChar(s[k])] + Words(s, k + 1))
  {
    hide LowerChar, StartsWord;
  }

  lemma {:induction false} SlugFromIsWords(s: string, i: nat, slug: string)
    requires i <= |s| && (slug == "" <==> i == 0) && (0 < i < |s| && IsUpper(s[i]) ==> !IsUpper(s[i - 1]))
    ensures SlugFrom(s[i..], slug) == slug + Words(s, i)
    decreases |s| - i
  {
    hide RunWords, LowerChar, Words, UpperRun, AllUpper;
    if i == |s| {
      assert s[i..] == "" && Words(s, i) == "" by { NoWords(s); }
    } else if IsUpper(s[i]) {
      var n := UpperRun(s[i..]);
      UpperRunMeaning(s, i);
      RunIsWords(s, i, i + n);
      assert s[i..][n..] == s[i + n..];
      var words := RunWords(s[i..], n);
      RunNotEmpty(s[i..], n);
      SlugFromIsWords(s, i + n, slug + Gap(slug) + words);
      assert slug + Gap(slug) + words + Words(s, i + n) == slug + (Gap(slug) + (words + Words(s, i + n)));
    } else {
      assert s[i..][1..] == s[i + 1..] && s[i..][0] == s[i];
      PlainIsLower(s[i]);
      WordsUnfold(s, i);
      SlugFromIsWords(s, i + 1, slug + [s[i]]);
      assert "" + ([s[i]] + Words(s, i + 1)) == [s[i]] + Words(s, i + 1);
      Concat(slug, [s[i]], Words(s, i + 1));
    }
  }

  lemma NoWords(s: string)
    ensures Words(s, |s|) == ""
  {
  }

  lemma PlainIsLower(c: char)
    requires !IsUpper(c)
    ensures LowerChar(c) == c
  {
  }

  lemma RunNotEmpty(s: string, n: nat)
    requires 0 < n <= |s|
    ensures RunWords(s, n) != ""
  {
    hide LowerChar;
  }

  /** The nested loops put hyphens exactly before the word starts. */
  lemma SlugIsWords(name: string)
    ensures SlugOf(name) == Words(WithoutPrefix(name), 0)
  {
    var s := WithoutPrefix(name);
    assert s[0..] == s;
    SlugFromIsWords(s, 0, "");
  }

  // ---------------------------------------------------------------- what a slug finds

  /** The name as it is compared: prefix dropped, lower case, no hyphens. */
  function MatchKey(name: string): string {
    Unhyphened(Lower(WithoutPrefix(name)))
  }

  /** Every entry of the map is some operation under its own slug, and every operation's slug is there. */
  predicate IsOpMap(ops: seq<Op>, names: seq<string>) {
    && (forall i :: 0 <= i < |ops| ==> ops[i].name in names && ops[i].slug == SlugOf(ops[i].name))
    && (forall k :: 0 <= k < |names| ==> HasSlug(ops, SlugOf(names[k])))
  }

  predicate HasSlug(ops: seq<Op>, slug: string) {
    exists i :: 0 <= i < |ops| && ops[i].slug == slug
  }

  lemma {:induction false} SetOpMeaning(ops: seq<Op>, slug: string, name: string)
    ensures var r := SetOp(ops, slug, name);
            && (forall i :: 0 <= i < |r| ==> r[i] == Op(slug, name) || (i < |ops| && r[i] == ops[i]))
            && HasSlug(r, slug) && |ops| <= |r|
            && (forall i :: 0 <= i < |ops| ==> r[i].slug == ops[i].slug)
  {
    var r := SetOp(ops, slug, name);
    if ops == [] || ops[0].slug == slug {
      assert r[0].slug == slug;
    } else {
      SetOpMeaning(ops[1..], slug, name);
      var tail, rest := ops[1..], SetOp(ops[1..], slug, name);
      hide SetOp;
      assert r == [ops[0]] + rest && ops == [ops[0]] + tail;
      var i :| 0 <= i < |rest| && rest[i].slug == slug;
      assert r[i + 1].slug == slug;
    }
  }

  lemma SetOpKeeps(acc: seq<Op>, done: seq<string>, name: string)
    requires IsOpMap(acc, done)
    ensures IsOpMap(SetOp(acc, SlugOf(name), name), done + [name])
  {
    hide SlugOf, SetOp;
    var slug := SlugOf(name);
    var next := SetOp(acc, slug, name);
    SetOpMeaning(acc, slug, name);
    var done' := done + [name];
    forall k | 0 <= k < |done'| ensures HasSlug(next, SlugOf(done'[k])) {
      if k < |done| {
        assert HasSlug(acc, SlugOf(done[k]));
        var i :| 0 <= i < |acc| && acc[i].slug == SlugOf(done[k]);
        assert next[i].slug == SlugOf(done[k]);
      }
    }
    forall i | 0 <= i < |next| ensures next[i].name in done' && next[i].slug == SlugOf(next[i].name) {
      if next[i] == Op(slug, name) {
        assert done'[|done|] == name;
      }
    }
  }

  lemma {:induction false} OpMapMeaning(names: seq<string>, acc: seq<Op>, done: seq<string>)
    requires IsOpMap(acc, done)
    ensures IsOpMap(OpMapFrom(names, acc), done + names)
    decreases |names|
  {
    hide SlugOf, SetOp, IsOpMap;
    if names == [] {
      assert done + names == done;
    } else {
      SetOpKeeps(acc, done, names[0]);
      OpMapMeaning(names[1..], SetOp(acc, SlugOf(names[0]), names[0]), done + [names[0]]);
      assert done + [names[0]] + names[1..] == done + names;
    }
  }

  lemma {:induction false} LookupMeaning(ops: seq<Op>, slug: string, key: string)
    ensures FindSlug(ops, slug).Some? ==> exists i :: 0 <= i < |ops| && ops[i] == Op(slug, FindSlug(ops, slug).value)
    ensures FindUnhyphened(ops, key).Some? ==>
              exists i :: 0 <= i < |ops| && Unhyphened(ops[i].slug) == key
                          && ops[i].name == FindUnhyphened(ops, key).value
    ensures FindUnhyphened(ops, key).None? ==> forall i :: 0 <= i < |ops| ==> Unhyphened(ops[i].slug) != key
  {
    hide Unhyphened;
    if ops != [] {
      LookupMeaning(ops[1..], slug, key);
      if FindSlug(ops, slug).Some? && ops[0].slug != slug {
        var i :| 0 <= i < |ops[1..]| && ops[1..][i] == Op(slug, FindSlug(ops, slug).value);
        assert ops[i + 1] == ops[1..][i];
      }
      if FindUnhyphened(ops, key).Some? && Unhyphened(ops[0].slug) != key {
        var i :| 0 <= i < |ops[1..]| && Unhyphened(ops[1..][i].slug) == key
               && ops[1..][i].name == FindUnhyphened(ops, key).value;
        assert ops[i + 1] == ops[1..][i];
      }
      if FindUnhyphened(ops, key).None? {
        forall i | 0 <= i < |ops| ensures Unhyphened(ops[i].slug) != key {
          if i > 0 { assert ops[i] == ops[1..][i - 1]; }
        }
      }
    }
  }

  /** A slug finds an operation iff some operation has that name up to hyphens, and then one that has. */
  lemma MatchMeaning(names: seq<string>, suffix: string)
    ensures var r := Matched(suffix, OpMapFrom(names, []));
            && (r.Some? ==> r.value in names && MatchKey(r.value) == Unhyphened(suffix))
            && (r.None? ==> forall k :: 0 <= k < |names| ==> MatchKey(names[k]) != Unhyphened(suffix))
  {
    hide Unhyphened, SlugOf, WithoutPrefix;
    var ops := OpMapFrom(names, []);
    OpMapMeaning(names, [], []);
    assert [] + names == names;
    LookupMeaning(ops, suffix, Unhyphened(suffix));
    forall name ensures Unhyphened(SlugOf(name)) == MatchKey(name) { SlugMeaning(name); }
    if Matched(suffix, ops).None? {
      forall k | 0 <= k < |names| ensures MatchKey(names[k]) != Unhyphened(suffix) {
        assert HasSlug(ops, SlugOf(names[k]));
      }
    }
  }

  /** The last of the names with this slug. */
  function LastWithSlug(names: seq<string>, slug: string): Option<string> {
    if names == [] then None
    else
      var last := names[|names| - 1];
      if SlugOf(last) == slug then Some(last) else LastWithSlug(names[..|names| - 1], slug)
  }

  lemma {:induction false} FindAfterSet(ops: seq<Op>, slug: string, name: string, k: string)
    ensures FindSlug(SetOp(ops, slug, name), k) == if k == slug then Some(name) else FindSlug(ops, k)
  {
    if ops != [] && ops[0].slug != slug {
      FindAfterSet(ops[1..], slug, name, k);
    }
  }

  lemma {:induction false} OpMapSnoc(names: seq<string>, acc: seq<Op>)
    requires names != []
    ensures var last := names[|names| - 1];
            OpMapFrom(names, acc) == SetOp(OpMapFrom(names[..|names| - 1], acc), SlugOf(last), last)
    decreases |names|
  {
    hide SetOp, SlugOf;
    if |names| > 1 {
      OpMapSnoc(names[1..], SetOp(acc, SlugOf(names[0]), names[0]));
      assert names[1..][..|names| - 2] == names[..|names| - 1][1..];
    }
  }

  /** An operation whose own slug is asked for is found, the last one when several share it,
      before any that agrees only up to hyphens. */
  lemma {:induction false} ExactSlugWins(names: seq<string>, suffix: string)
    ensures FindSlug(OpMapFrom(names, []), suffix) == LastWithSlug(names, suffix)
    ensures LastWithSlug(names, suffix).Some? ==> Matched(suffix, OpMapFrom(names, [])) == LastWithSlug(names, suffix)
    decreases |names|
  {
    hide SetOp, SlugOf;
    if names != [] {
      var init, last := names[..|names| - 1], names[|names| - 1];
      ExactSlugWins(init, suffix);
      OpMapSnoc(names, []);
      FindAfterSet(OpMapFrom(init, []), SlugOf(last), last, suffix);
    }
  }

  /** One prefix, `receive` or `publish`, is dropped, and no other text. */
  lemma PrefixMeaning(name: string)
    ensures SlugOf("receive" + name) == Words(name, 0) && SlugOf("publish" + name) == Words(name, 0)
    ensures !StartsWith(name, "receive") && !StartsWith(name, "publish") ==> SlugOf(name) == Words(name, 0)
  {
    hide SlugOf, Words;
    DropsSeven("receive", name);
    DropsSeven("publish", name);
    SlugIsWords("receive" + name);
    SlugIsWords("publish" + name);
    SlugIsWords(name);
  }

  lemma DropsSeven(prefix: string, name: string)
    requires prefix == "receive" || prefix == "publish"
    ensures WithoutPrefix(prefix + name) == name
  {
    var s := prefix + name;
    assert s[..7] == prefix && s[7..] == name;
    assert prefix == "publish" ==> s[0] == 'p' && "receive"[0] == 'r';
  }

  /** Without an exact slug the first operation of the map that agrees up to hyphens is returned. */
  lemma {:induction false} FirstMatchWins(ops: seq<Op>, suffix: string, i: nat)
    requires forall k :: 0 <= k < |ops| ==> ops[k].slug != suffix
    requires i < |ops| && Unhyphened(ops[i].slug) == Unhyphened(suffix)
    requires forall k :: 0 <= k < i ==> Unhyphened(ops[k].slug) != Unhyphened(suffix)
    ensures Matched(suffix, ops) == Some(ops[i].name)
  {
    hide Unhyphened;
    LookupMeaning(ops, suffix, "");
    FirstUnhyphened(ops, Unhyphened(suffix), i);
  }

  lemma {:induction false} FirstUnhyphened(ops: seq<Op>, key: string, i: nat)
    requires i < |ops| && Unhyphened(ops[i].slug) == key
    requires forall k :: 0 <= k < i ==> Unhyphened(ops[k].slug) != key
    ensures FindUnhyphened(ops, key) == Some(ops[i].name)
  {
    hide Unhyphened;
    if i > 0 {
      FirstUnhyphened(ops[1..], key, i - 1);
    }
  }
}
