/** Strings as the modelled Python and Go code sees them: white space (the ASCII part of
    `str.isspace`), stripping, splitting and joining. */
module Text {

  datatype Option<+T> = None | Some(value: T) {
    function GetOr(default: T): T {
      if Some? then value else default
    }
  }

  predicate IsSpace(c: char) {
    c == ' ' || '\t' <= c <= '\r' || '\U{1C}' <= c <= '\U{1F}'
  }

  predicate IsDigit(c: char) {
    '0' <= c <= '9'
  }

  predicate IsUpper(c: char) {
    'A' <= c <= 'Z'
  }

  predicate IsLetter(c: char) {
    'a' <= c <= 'z' || IsUpper(c)
  }

  function LowerChar(c: char): char {
    if IsUpper(c) then (c as int + 32) as char else c
  }

  function Lower(s: string): (r: string)
    ensures |r| == |s|
    ensures forall i :: 0 <= i < |s| ==> r[i] == LowerChar(s[i])
  {
    seq(|s|, i requires 0 <= i < |s| => LowerChar(s[i]))
  }

  predicate StartsWith(s: string, prefix: string) {
    prefix <= s
  }

  predicate EndsWith(s: string, suffix: string) {
    |suffix| <= |s| && s[|s| - |suffix|..] == suffix
  }

  /** Number of leading white-space characters. */
  function Lead(s: string): (n: nat)
    ensures n <= |s|
  {
    if s != "" && IsSpace(s[0]) then 1 + Lead(s[1..]) else 0
  }

  function LStrip(s: string): string {
    s[Lead(s)..]
  }

  function RStrip(s: string): string {
    if s != "" && IsSpace(s[|s| - 1]) then RStrip(s[..|s| - 1]) else s
  }

  function Strip(s: string): string {
    RStrip(LStrip(s))
  }

  /** Nothing to strip on either side. */
  predicate Trimmed(s: string) {
    s != "" && !IsSpace(s[0]) && !IsSpace(s[|s| - 1])
  }

  function Spaces(n: nat): (s: string)
    ensures |s| == n && forall i :: 0 <= i < n ==> s[i] == ' '
  {
    seq(n, _ => ' ')
  }

  lemma {:induction false} LeadOfIndented(pad: string, body: string)
    requires forall i :: 0 <= i < |pad| ==> IsSpace(pad[i])
    requires body == "" || !IsSpace(body[0])
    ensures Lead(pad + body) == |pad| && LStrip(pad + body) == body
  {
    if pad == "" {
      assert pad + body == body;
    } else {
      assert (pad + body)[1..] == pad[1..] + body;
      LeadOfIndented(pad[1..], body);
    }
  }

  lemma {:induction false} LeadMeaning(s: string)
    ensures forall i :: 0 <= i < Lead(s) ==> IsSpace(s[i])
    ensures Lead(s) < |s| ==> !IsSpace(s[Lead(s)])
  {
    if s != "" && IsSpace(s[0]) {
      LeadMeaning(s[1..]);
    }
  }

  lemma {:induction false} RStripMeaning(s: string)
    ensures RStrip(s) <= s
    ensures RStrip(s) != "" ==> !IsSpace(RStrip(s)[|RStrip(s)| - 1])
    ensures s != "" && !IsSpace(s[0]) ==> RStrip(s) != ""
  {
    if s != "" && IsSpace(s[|s| - 1]) {
      RStripMeaning(s[..|s| - 1]);
    }
  }

  /** Stripping stops at the last character that is no white space. */
  lemma {:induction false} RStripKeeps(s: string, i: nat)
    requires i < |s| && !IsSpace(s[i])
    ensures |RStrip(s)| > i && RStrip(s)[..i + 1] == s[..i + 1]
  {
    if IsSpace(s[|s| - 1]) {
      RStripKeeps(s[..|s| - 1], i);
      assert s[..|s| - 1][..i + 1] == s[..i + 1];
    }
  }

  lemma StripIndented(n: nat, body: string)
    requires Trimmed(body)
    ensures Lead(Spaces(n) + body) == n && LStrip(Spaces(n) + body) == body && Strip(Spaces(n) + body) == body
  {
    LeadOfIndented(Spaces(n), body);
  }

  lemma StripTrimmed(s: string)
    requires s == "" || Trimmed(s)
    ensures Strip(s) == s && LStrip(s) == s && Lead(s) == 0
  {
  }

  /** What is left after stripping is empty or trimmed, and starts where the leading white space ends. */
  lemma StripIsTrimmed(s: string)
    ensures Strip(s) == "" || Trimmed(Strip(s))
    ensures Strip(s) != "" ==> Lead(s) < |s| && Strip(s)[0] == s[Lead(s)]
    ensures Strip(s) == "" <==> Lead(s) == |s|
  {
    LeadMeaning(s);
    RStripMeaning(LStrip(s));
  }

  lemma Concat<T>(a: seq<T>, b: seq<T>, c: seq<T>)
    ensures a + (b + c) == a + b + c
  {
  }

  /** Stripping takes off the white space around a text and nothing else. */
  lemma StripMeaning(before: string, body: string, after: string)
    requires forall i :: 0 <= i < |before| ==> IsSpace(before[i])
    requires forall i :: 0 <= i < |after| ==> IsSpace(after[i])
    requires body == "" || Trimmed(body)
    ensures Strip(before + body + after) == body
    ensures body != "" ==> Lead(before + body + after) == |before|
  {
    assert before + body + after == before + (body + after);
    if body == "" {
      assert before + body + after == (before + after) + "";
      LeadOfIndented(before + after, "");
    } else {
      LeadOfIndented(before, body + after);
      RStripAfter(body, after);
    }
  }

  lemma {:induction false} RStripAfter(body: string, after: string)
    requires Trimmed(body) && forall i :: 0 <= i < |after| ==> IsSpace(after[i])
    ensures RStrip(body + after) == body
  {
    if after == "" {
      assert body + after == body;
    } else {
      assert (body + after)[..|body + after| - 1] == body + after[..|after| - 1];
      RStripAfter(body, after[..|after| - 1]);
    }
  }

  // ---------------------------------------------------------------- searching

  /** The first position of c. */
  function Find(s: string, c: char): (r: Option<nat>)
    ensures r.Some? ==> r.value < |s|
  {
    if s == "" then None
    else if s[0] == c then Some(0)
    else match Find(s[1..], c)
      case None => None
      case Some(i) => Some(i + 1)
  }

  lemma {:induction false} FindMeaning(s: string, c: char)
    ensures Find(s, c).Some? ==> s[Find(s, c).value] == c && c !in s[..Find(s, c).value]
    ensures Find(s, c).None? ==> c !in s
  {
    if s != "" && s[0] != c {
      FindMeaning(s[1..], c);
      if Find(s, c).Some? {
        var i := Find(s, c).value;
        assert s[..i] == [s[0]] + s[1..][..i - 1];
      }
    }
  }

  lemma {:induction false} FindFirst(s: string, c: char, i: nat)
    requires i < |s| && s[i] == c && c !in s[..i]
    ensures Find(s, c) == Some(i)
  {
    if i > 0 {
      assert s[0] in s[..i];
      assert s[1..][..i - 1] == s[..i][1..];
      FindFirst(s[1..], c, i - 1);
    }
  }

  predicate Occurs(part: string, s: string) {
    exists i :: 0 <= i <= |s| && StartsWith(s[i..], part)
  }

  // ---------------------------------------------------------------- numbers

  /** Decimal notation. */
  function NatText(n: nat): string {
    (if n < 10 then "" else NatText(n / 10)) + [('0' as int + n % 10) as char]
  }

  function IntText(n: int): string {
    if n < 0 then "-" + NatText(-n) else NatText(n)
  }

  lemma {:induction false} NatTextDigits(n: nat)
    ensures NatText(n) != "" && forall i :: 0 <= i < |NatText(n)| ==> IsDigit(NatText(n)[i])
  {
    if n >= 10 {
      NatTextDigits(n / 10);
    }
  }

  // ---------------------------------------------------------------- joining and splitting

  /** `sep.join(parts)`. */
  function Join(parts: seq<string>, sep: string): string {
    if |parts| == 0 then ""
    else if |parts| == 1 then parts[0]
    else parts[0] + sep + Join(parts[1..], sep)
  }

  /** `s.split(c)` for a one-character separator: always at least one part. */
  function Split(s: string, c: char): (parts: seq<string>)
    ensures |parts| >= 1
    ensures forall i :: 0 <= i < |parts| ==> c !in parts[i]
  {
    if s == "" then [""]
    else
      var rest := Split(s[1..], c);
      if s[0] == c then [""] + rest else [[s[0]] + rest[0]] + rest[1..]
  }

  lemma {:induction false} JoinCons(head: string, tail: seq<string>, sep: string)
    requires |tail| > 0
    ensures Join([head] + tail, sep) == head + sep + Join(tail, sep)
  {
    assert ([head] + tail)[1..] == tail;
  }

  lemma JoinOne(s: string, sep: string)
    ensures Join([s], sep) == s
  {
  }

  lemma {:induction false} JoinHead(c: char, parts: seq<string>, sep: string)
    requires |parts| >= 1
    ensures Join([[c] + parts[0]] + parts[1..], sep) == [c] + Join(parts, sep)
  {
    if |parts| > 1 {
      JoinCons([c] + parts[0], parts[1..], sep);
      Concat([c], parts[0] + sep, Join(parts[1..], sep));
      Concat([c], parts[0], sep);
    } else {
      assert [[c] + parts[0]] + parts[1..] == [[c] + parts[0]];
    }
  }

  lemma {:induction false} JoinSplit(s: string, c: char)
    ensures Join(Split(s, c), [c]) == s
  {
    hide Join;
    if s == "" {
      JoinOne("", [c]);
    } else {
      JoinSplit(s[1..], c);
      var rest := Split(s[1..], c);
      assert s == [s[0]] + s[1..];
      if s[0] == c {
        JoinCons("", rest, [c]);
        assert "" + [c] + s[1..] == s;
      } else {
        JoinHead(s[0], rest, [c]);
      }
    }
  }

  lemma {:induction false} SplitPlain(s: string, c: char)
    requires c !in s
    ensures Split(s, c) == [s]
  {
    if s != "" {
      SplitPlain(s[1..], c);
      assert [s[0]] + s[1..] == s;
    }
  }

  /** Splitting distributes over a separator. */
  lemma {:induction false} SplitAt(a: string, b: string, c: char)
    ensures Split(a + [c] + b, c) == Split(a, c) + Split(b, c)
  {
    if a == "" {
      assert a + [c] + b == [c] + b;
      assert ([c] + b)[1..] == b;
    } else {
      assert (a + [c] + b)[1..] == a[1..] + [c] + b;
      assert (a + [c] + b)[0] == a[0];
      SplitAt(a[1..], b, c);
    }
  }

  lemma {:induction false} SplitJoin(parts: seq<string>, c: char)
    requires |parts| >= 1
    requires forall i :: 0 <= i < |parts| ==> c !in parts[i]
    ensures Split(Join(parts, [c]), c) == parts
  {
    SplitPlain(parts[0], c);
    if |parts| > 1 {
      SplitAt(parts[0], Join(parts[1..], [c]), c);
      SplitJoin(parts[1..], c);
    }
  }

  /** Joining distributes over concatenation of non-empty lists. */
  lemma {:induction false} JoinAppend(a: seq<string>, b: seq<string>, sep: string)
    requires |a| > 0 && |b| > 0
    ensures Join(a + b, sep) == Join(a, sep) + sep + Join(b, sep)
  {
    assert a + b == [a[0]] + (a[1..] + b);
    JoinCons(a[0], a[1..] + b, sep);
    if |a| == 1 {
      assert a[1..] + b == b;
    } else {
      JoinAppend(a[1..], b, sep);
    }
  }

  // ---------------------------------------------------------------- the characters themselves

  const UPPER := "ABCDEFGHIJKLMNOPQRSTUVWXYZ"
  const LOWER := "abcdefghijklmnopqrstuvwxyz"

  lemma UpperAt(i: nat)
    requires i < 26
    ensures IsUpper(UPPER[i]) && UPPER[i] as int == 'A' as int + i
  {
  }

  lemma LowerAt(i: nat)
    requires i < 26
    ensures 'a' <= LOWER[i] <= 'z' && LOWER[i] as int == 'a' as int + i
  {
  }

  /** Which characters are white space and digits. */
  lemma CharacterClasses(c: char)
    ensures IsSpace(c) <==> c in " \t\n\U{0B}\U{0C}\r\U{1C}\U{1D}\U{1E}\U{1F}"
    ensures IsDigit(c) <==> c in "0123456789"
  {
    if IsDigit(c) {
      assert "0123456789"[c as int - '0' as int] == c;
    }
  }

  /** Which characters are letters. */
  lemma LetterMeaning(c: char)
    ensures IsUpper(c) <==> exists i :: 0 <= i < 26 && c == UPPER[i]
    ensures IsLetter(c) <==> exists i :: 0 <= i < 26 && (c == UPPER[i] || c == LOWER[i])
  {
    forall i | 0 <= i < 26
      ensures UPPER[i] as int == 'A' as int + i && LOWER[i] as int == 'a' as int + i
    {
      UpperAt(i);
      LowerAt(i);
    }
    if IsUpper(c) {
      assert c == UPPER[c as int - 'A' as int];
    } else if IsLetter(c) {
      assert c == LOWER[c as int - 'a' as int];
    }
  }

  /** Each upper-case letter has its lower-case one, and every other character stays. */
  lemma LowerMeaning(c: char)
    ensures forall i :: 0 <= i < 26 && c == UPPER[i] ==> LowerChar(c) == LOWER[i]
    ensures (forall i :: 0 <= i < 26 ==> c != UPPER[i]) ==> LowerChar(c) == c
  {
    LetterMeaning(c);
    forall i | 0 <= i < 26 && c == UPPER[i] ensures LowerChar(c) == LOWER[i] {
      UpperAt(i);
      LowerAt(i);
    }
  }
}
