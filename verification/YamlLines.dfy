/** What the parser reads in one line, in terms of its characters alone: comments, noise, keys, and
    which texts are null, booleans, numbers or strings. */
module YamlLines {
  import opened Text
  import opened YamlText
  import opened YamlSpec
  import opened YamlPrint
  import opened YamlRoundTrip

  predicate NoQuotes(s: string) {
    '\'' !in s && '"' !in s
  }

  predicate IsQuote(c: char) {
    c == '\'' || c == '"'
  }

  // ---------------------------------------------------------------- comments and noise

  lemma {:induction false} CommentAt(text: string, i: nat, c: nat)
    requires i <= c <= |text| && (forall k :: i <= k < c ==> !OpensComment(text, k))
    requires c < |text| ==> OpensComment(text, c)
    ensures CommentFrom(text, i) == c
    decreases c - i
  {
    if i < c {
      CommentAt(text, i + 1, c);
    }
  }

  lemma NoHashNoComment(text: string)
    requires '#' !in text
    ensures WithoutComment(text) == Strip(text)
  {
    hide Strip, QuoteAt;
    CommentAt(text, 0, |text|);
    assert text[..|text|] == text;
  }

  /** Without quotes before it, the first `#` opens a comment at the start of the text or after a
      blank, and nowhere else. */
  lemma HashMeaning(a: string, b: string)
    requires NoQuotes(a) && '#' !in a
    ensures a == "" || a[|a| - 1] == ' ' ==> WithoutComment(a + "#" + b) == Strip(a)
    ensures a != "" && a[|a| - 1] != ' ' && NoQuotes(b) && '#' !in b ==>
              WithoutComment(a + "#" + b) == Strip(a + "#" + b)
  {
    hide Strip, QuoteAt;
    var text := a + "#" + b;
    assert forall k :: 0 <= k < |a| ==> text[k] == a[k];
    NoQuotesOutside(text, |a|);
    if a == "" || a[|a| - 1] == ' ' {
      CommentAt(text, 0, |a|);
      assert text[..|a|] == a;
    } else if NoQuotes(b) && '#' !in b {
      CommentAt(text, 0, |text|);
      assert text[..|text|] == text;
    }
  }

  lemma InsideQuotes(q: char, s: string, rest: string, i: nat)
    requires IsQuote(q) && q !in s && 1 <= i <= |s| + 1
    ensures QuoteAt([q] + s + [q] + rest, i) == if q == '"' then InDouble else InSingle
    ensures QuoteAt([q] + s + [q] + rest, |s| + 2) == Outside
  {
    var text := [q] + s + [q] + rest;
    InsideUpTo(q, s, rest, i);
    InsideUpTo(q, s, rest, |s| + 1);
    assert text[|s| + 1] == q;
  }

  lemma {:induction false} InsideUpTo(q: char, s: string, rest: string, i: nat)
    requires IsQuote(q) && q !in s && 1 <= i <= |s| + 1
    ensures QuoteAt([q] + s + [q] + rest, i) == if q == '"' then InDouble else InSingle
  {
    var text := [q] + s + [q] + rest;
    if i > 1 {
      InsideUpTo(q, s, rest, i - 1);
      assert text[i - 1] == s[i - 2];
    } else {
      assert QuoteAt(text, 0) == Outside && text[0] == q;
    }
  }

  /** A `#` in a closed quotation opens no comment, and one after a blank behind it does. */
  lemma HashInQuotes(q: char, s: string, comment: string)
    requires IsQuote(q) && q !in s
    ensures WithoutComment([q] + s + [q]) == [q] + s + [q]
    ensures WithoutComment([q] + s + [q] + " #" + comment) == [q] + s + [q]
  {
    hide Strip, QuoteAt;
    var t := [q] + s + [q];
    StripTrimmed(t);
    forall rest, k | 1 <= k <= |s| + 1 ensures QuoteAt(t + rest, k) != Outside {
      InsideQuotes(q, s, rest, k);
    }
    assert t + "" == t;
    CommentAt(t, 0, |t|);
    assert t[..|t|] == t;
    var rest := " #" + comment;
    var text := t + rest;
    InsideQuotes(q, s, rest, 1);
    assert QuoteAt(text, |t|) == Outside && text[|t|] == ' ';
    assert QuoteAt(text, |t| + 1) == Outside by { AfterBlank(text, |t|); }
    CommentAt(text, 0, |t| + 1);
    assert text[..|t| + 1] == t + " ";
    assert t + " #" + comment == text;
    StripBlankEnd(t);
  }

  lemma AfterBlank(text: string, i: nat)
    requires i < |text| && text[i] == ' '
    ensures QuoteAt(text, i + 1) == QuoteAt(text, i)
  {
  }

  lemma StripBlankEnd(t: string)
    requires Trimmed(t)
    ensures Strip(t + " ") == t
  {
    assert Lead(t + " ") == 0 && LStrip(t + " ") == t + " ";
    assert (t + " ")[..|t|] == t;
    assert RStrip(t) == t;
  }

  /** Blank lines and lines that start with `#` are noise, and no others. */
  lemma NoiseMeaning(pad: string, c: char, rest: string)
    requires (forall i :: 0 <= i < |pad| ==> IsSpace(pad[i])) && !IsSpace(c)
    ensures IsNoise(pad)
    ensures IsNoise(pad + [c] + rest) <==> c == '#'
  {
    var line := pad + [c] + rest;
    assert line == pad + ([c] + rest) && pad + "" == pad;
    LeadOfIndented(pad, [c] + rest);
    LeadOfIndented(pad, "");
    StripIsTrimmed(pad);
    StripIsTrimmed(line);
    assert Strip(line)[..1] == [Strip(line)[0]];
  }

  // ---------------------------------------------------------------- keys

  lemma KeyCharIsWord(c: char)
    ensures IsKeyChar(c) <==> IsWord(c)
    ensures IsKeyChar(c) ==> !IsSpace(c) && !IsQuote(c) && c != ':' && c != '#' && c != '{' && c != '['
  {
  }

  lemma {:induction false} WordRunBound(s: string)
    ensures forall i :: 0 <= i < WordRun(s) ==> IsWord(s[i])
    ensures WordRun(s) < |s| ==> !IsWord(s[WordRun(s)])
  {
    if s != "" && IsWord(s[0]) {
      WordRunBound(s[1..]);
    }
  }

  /** Exactly which texts are read as an unquoted key before a colon: the non-empty ones of letters,
      digits and `_$-./`. White space may stand before the colon. */
  lemma PlainKeyMeaning(k: string, w: string, rest: string)
    requires forall i :: 0 <= i < |w| ==> IsSpace(w[i])
    ensures MatchKey(k + w + ":" + rest) == Some(KeyLine(k, LStrip(rest))) <==> IsPlainKey(k)
  {
    hide LStrip, DropQuotes, WordRun;
    var s := k + w + ":" + rest;
    forall c ensures IsKeyChar(c) <==> IsWord(c) { KeyCharIsWord(c); }
    if IsPlainKey(k) {
      assert forall i :: 0 <= i < |k| ==> s[i] == k[i] && IsWord(s[i]);
      assert !IsWord(s[|k|]) by { AfterKey(k, w, rest); }
      WordRunMeaning(s, |k|);
      assert s[..|k|] == k && s[|k|..] == w + (":" + rest);
      NoQuotesDropped(k);
      LeadOfIndented(w, ":" + rest);
      assert (":" + rest)[1..] == rest;
      assert LStrip(s[|k|..]) == ":" + rest;
    } else if MatchKey(s) == Some(KeyLine(k, LStrip(rest))) {
      OnlyWordsMatch(s, k);
    }
  }

  lemma AfterKey(k: string, w: string, rest: string)
    requires forall i :: 0 <= i < |w| ==> IsSpace(w[i])
    ensures !IsWord((k + w + ":" + rest)[|k|])
  {
    assert (k + w + ":" + rest)[|k|] == (w + ":")[0];
  }

  lemma NoQuotesDropped(k: string)
    requires IsPlainKey(k)
    ensures DropQuotes(k) == k
  {
    KeyCharIsWord(k[0]);
    KeyCharIsWord(k[|k| - 1]);
  }

  /** A key that the text itself starts with consists of word characters. */
  lemma OnlyWordsMatch(s: string, k: string)
    requires k <= s && MatchKey(s).Some? && MatchKey(s).value.key == k
    ensures k != "" ==> forall i :: 0 <= i < |k| ==> IsWord(k[i])
    ensures k != "" || (s != "" && IsQuote(s[0]))
  {
    hide LStrip, DropQuotes, WordRun;
    var n := KeyToken(s).value;
    DropQuotesEnds(s[..n]);
    if k != "" {
      assert k[0] == s[0];
      WordRunBound(s);
      assert |k| <= n && forall i :: 0 <= i < |k| ==> k[i] == s[i];
    } else if IsWord(s[0]) {
      WordRunBound(s);
      DropWord(s[..n]);
    }
  }

  lemma DropWord(s: string)
    requires s != "" && forall i :: 0 <= i < |s| ==> IsWord(s[i])
    ensures DropQuotes(s) == s
  {
    assert IsWord(s[0]) && IsWord(s[|s| - 1]);
  }

  lemma {:induction false} DropQuotesEnds(s: string)
    ensures var d := DropQuotes(s);
            |d| <= |s| && (d != "" ==> !IsQuote(d[0]) && !IsQuote(d[|d| - 1]))
  {
    if s != "" && s[0] in "'\"" {
      DropQuotesEnds(s[1..]);
    } else if s != "" && s[|s| - 1] in "'\"" {
      DropQuotesEnds(s[..|s| - 1]);
    }
  }

  /** Exactly which texts are read as a quoted key: those without its quote and without the other
      quote at either end. */
  lemma QuotedKeyMeaning(q: char, k: string, w: string, rest: string)
    requires IsQuote(q) && forall i :: 0 <= i < |w| ==> IsSpace(w[i])
    ensures MatchKey([q] + k + [q] + w + ":" + rest) == Some(KeyLine(k, LStrip(rest))) <==>
              q !in k && (k != "" ==> !IsQuote(k[0]) && !IsQuote(k[|k| - 1]))
  {
    hide LStrip, DropQuotes, WordRun;
    var tail := [q] + w + ":" + rest;
    var s := [q] + k + [q] + w + ":" + rest;
    assert s == [q] + (k + tail) && s[1..] == k + tail;
    assert !IsWord(q);
    var n := |k| + 2;
    if q !in k {
      assert (k + tail)[..|k|] == k;
      FindFirst(k + tail, q, |k|);
      assert KeyToken(s) == Some(n);
      assert s[..n] == [q] + k + [q] && s[n..] == w + (":" + rest);
      LeadOfIndented(w, ":" + rest);
      assert (":" + rest)[1..] == rest && LStrip(s[n..]) == ":" + rest;
      DropAround(q, k);
      DropQuotesEnds(k);
    } else if MatchKey(s) == Some(KeyLine(k, LStrip(rest))) {
      ShortToken(q, k, tail);
    }
  }

  lemma DropAround(q: char, k: string)
    requires IsQuote(q)
    ensures DropQuotes([q] + k + [q]) == DropQuotes(k)
    ensures k == "" || (!IsQuote(k[0]) && !IsQuote(k[|k| - 1])) ==> DropQuotes(k) == k
  {
    hide DropQuotes;
    var t := [q] + k + [q];
    assert t[1..] == k + [q];
    DropQuotesUnfolds(t);
    DropAfter(q, k);
    DropQuotesUnfolds(k);
  }

  lemma {:induction false} DropAfter(q: char, k: string)
    requires IsQuote(q)
    ensures DropQuotes(k + [q]) == DropQuotes(k)
  {
    hide DropQuotes;
    DropQuotesUnfolds(k + [q]);
    DropQuotesUnfolds(k);
    if k == "" {
      assert (k + [q])[1..] == "";
    } else if IsQuote(k[0]) {
      assert (k + [q])[1..] == k[1..] + [q];
      DropAfter(q, k[1..]);
    } else {
      assert (k + [q])[..|k|] == k;
    }
  }

  lemma {:induction false} FindsNoLater(s: string, c: char, j: nat)
    requires j < |s| && s[j] == c
    ensures Find(s, c).Some? && Find(s, c).value <= j
  {
    if j > 0 {
      FindsNoLater(s[1..], c, j - 1);
    }
  }

  /** A quote inside ends the token before the key does. */
  lemma ShortToken(q: char, k: string, tail: string)
    requires IsQuote(q) && q in k && MatchKey([q] + (k + tail)).Some?
    ensures |MatchKey([q] + (k + tail)).value.key| < |k|
  {
    hide LStrip, DropQuotes, WordRun;
    var s := [q] + (k + tail);
    assert s[1..] == k + tail && !IsWord(q);
    var j :| 0 <= j < |k| && k[j] == q;
    FindMeaning(k + tail, q);
    FindsNoLater(k + tail, q, j);
    var i := Find(k + tail, q).value;
    var token := s[..i + 2];
    assert token == [q] + k[..i] + [q];
    DropAround(q, k[..i]);
    DropQuotesEnds(k[..i]);
  }

  /** Where a text without quotes looks like a key: a colon ends it or stands before a blank, and it
      does not start with a dash or an opening bracket. */
  lemma OpensKeyMeaning(text: string)
    requires NoQuotes(text)
    ensures OpensKey(text) <==>
              && text != "" && text[0] != '-' && text[0] != '{' && text[0] != '['
              && (text[|text| - 1] == ':' || Occurs(": ", text))
  {
    hide QuoteAt;
    assert text != "" ==> text[..1] == [text[0]];
    forall i | 0 <= i < |text| ensures QuoteAt(text, i) == Outside {
      NoQuotesOutside(text, i);
    }
    if i :| 0 <= i < |text| && IsKeyColon(text, i) {
      if i + 1 < |text| {
        assert text[i..][..2] == ": ";
        assert StartsWith(text[i..], ": ");
      }
    }
    if text != "" && text[|text| - 1] == ':' {
      assert IsKeyColon(text, |text| - 1);
    }
    if Occurs(": ", text) {
      var i :| 0 <= i <= |text| && StartsWith(text[i..], ": ");
      assert text[i..][..2] == ": " && text[i] == text[i..][0] && text[i + 1] == text[i..][1];
      assert IsKeyColon(text, i);
    }
  }

  /** A document of one unquoted key and a string in single quotes, such as a `$ref` line. */
  lemma KeyedStringReads(k: string, p: string)
    requires IsPlainKey(k) && k[0] != '-' && '\'' !in p && OneLine(p)
    ensures Document([k + ": '" + p + "'"]) == Map([Entry(k, Str(p))])
  {
    hide Keeps, IsKeyChar, Strip, Document;
    var v := Map([Entry(k, Str(p))]);
    SimpleIsKept(p);
    assert Quoted(p) == "'" + p + "'";
    var line := k + ": '" + p + "'";
    assert EntryHead(Entry(k, Str(p))) == line;
    EntryLinesSplit(v.entries, 0, []);
    NoItems(0);
    assert PrintLines(v) + [] == PrintLines(v) && v.entries[1..] == [] && Indented(0, line) == line;
    assert PrintLines(v) == [line];
    PrintedIsPlain(v);
    assert PlainLine(PrintLines(v)[0]);
    RestOfPlain([line], 0);
    assert [line][0..] == [line];
    DocumentReads([line], v);
  }

  /** The line of a reference. */
  lemma RefLineReads(p: string)
    requires '\'' !in p && OneLine(p)
    ensures Document(["$ref: '" + p + "'"]) == Map([Entry("$ref", Str(p))])
  {
    KeyedStringReads("$ref", p);
    assert "$ref" + ": '" + p + "'" == "$ref: '" + p + "'";
  }
}
