/** Rendering a payload template: every timestamp placeholder is replaced, left to right. */
module Render {
  import opened Text

  const PLACEHOLDER := "{{timestamp_ms}}"

  /** `strings.ReplaceAll(s, old, with)`. */
  function ReplaceAll(s: string, pat: string, with: string): string
    requires pat != ""
    decreases |s|
  {
    if s == "" then ""
    else if StartsWith(s, pat) then with + ReplaceAll(s[|pat|..], pat, with)
    else [s[0]] + ReplaceAll(s[1..], pat, with)
  }

  function Rendered(template: string, millis: int): string {
    ReplaceAll(template, PLACEHOLDER, IntText(millis))
  }

  /** The text between the occurrences, found left to right. */
  function Gaps(s: string, pat: string): (gaps: seq<string>)
    requires pat != ""
    ensures |gaps| >= 1
    decreases |s|
  {
    if s == "" then [""]
    else if StartsWith(s, pat) then [""] + Gaps(s[|pat|..], pat)
    else
      var rest := Gaps(s[1..], pat);
      [[s[0]] + rest[0]] + rest[1..]
  }

  // ---------------------------------------------------------------- nothing left

  /** A replacement text shares no character with the placeholder and is not empty. */
  predicate Foreign(with: string, pat: string) {
    with != "" && forall i :: 0 <= i < |with| ==> with[i] !in pat
  }

  lemma HeadOf(t: string, part: string)
    requires part != ""
    ensures StartsWith(t, part) ==> t != "" && t[0] == part[0]
  {
  }

  lemma ReplacedHead(s: string, pat: string, with: string)
    requires pat != "" && with != ""
    ensures StartsWith(s, pat) ==> ReplaceAll(s, pat, with) != "" && ReplaceAll(s, pat, with)[0] == with[0]
  {
  }

  /** The output starts with a piece of the placeholder only where the input does. */
  lemma {:induction false} PieceReflects(s: string, pat: string, with: string, k: nat)
    requires pat != "" && Foreign(with, pat) && k <= |pat|
    requires StartsWith(ReplaceAll(s, pat, with), pat[k..])
    ensures StartsWith(s, pat[k..])
    decreases |s|
  {
    if k < |pat| {
      var out := ReplaceAll(s, pat, with);
      assert out[..|pat| - k] == pat[k..];
      assert out[0] == pat[k];
      ReplacedHead(s, pat, with);
      assert out[1..] == ReplaceAll(s[1..], pat, with);
      assert out[1..][..|pat| - k - 1] == pat[k + 1..];
      PieceReflects(s[1..], pat, with, k + 1);
      assert s == [s[0]] + s[1..] && pat[k..] == [pat[k]] + pat[k + 1..];
    }
  }

  lemma {:induction false} NothingLeftAt(s: string, pat: string, with: string, i: nat)
    requires pat != "" && Foreign(with, pat) && i <= |ReplaceAll(s, pat, with)|
    ensures !StartsWith(ReplaceAll(s, pat, with)[i..], pat)
    decreases |s|
  {
    var out := ReplaceAll(s, pat, with);
    if s != "" && i < |out| {
      if StartsWith(s, pat) {
        var rest := ReplaceAll(s[|pat|..], pat, with);
        if i < |with| {
          assert out[i..][0] == with[i];
          HeadOf(out[i..], pat);
        } else {
          assert out[i..] == rest[i - |with|..];
          NothingLeftAt(s[|pat|..], pat, with, i - |with|);
        }
      } else if i == 0 {
        assert out[0..] == out && pat[0..] == pat;
        if StartsWith(out, pat) {
          PieceReflects(s, pat, with, 0);
        }
      } else {
        assert out[i..] == ReplaceAll(s[1..], pat, with)[i - 1..];
        NothingLeftAt(s[1..], pat, with, i - 1);
      }
    }
  }

  // ---------------------------------------------------------------- nothing else changed

  /** The template is its gaps joined by the placeholder, the output the same gaps joined by the replacement. */
  lemma {:induction false} GapsAreKept(s: string, pat: string, with: string)
    requires pat != ""
    ensures Join(Gaps(s, pat), pat) == s && Join(Gaps(s, pat), with) == ReplaceAll(s, pat, with)
    decreases |s|
  {
    hide Join;
    if s == "" {
      JoinOne("", pat);
      JoinOne("", with);
    } else if StartsWith(s, pat) {
      var rest := Gaps(s[|pat|..], pat);
      GapsAreKept(s[|pat|..], pat, with);
      JoinCons("", rest, pat);
      JoinCons("", rest, with);
      assert s == pat + s[|pat|..];
      assert "" + pat == pat && "" + with == with;
    } else {
      GapsAreKept(s[1..], pat, with);
      JoinHead(s[0], Gaps(s[1..], pat), pat);
      JoinHead(s[0], Gaps(s[1..], pat), with);
    }
  }

  lemma {:induction false} NoOccurrenceNoGap(s: string, pat: string)
    requires pat != "" && !Occurs(pat, s)
    ensures Gaps(s, pat) == [s]
    decreases |s|
  {
    if s != "" {
      assert s[0..] == s;
      forall i | 0 <= i <= |s[1..]| ensures !StartsWith(s[1..][i..], pat) {
        assert s[1..][i..] == s[i + 1..];
      }
      NoOccurrenceNoGap(s[1..], pat);
      assert [s[0]] + s[1..] == s;
    }
  }

  lemma {:induction false} DigitsAreForeign(n: int)
    ensures Foreign(IntText(n), PLACEHOLDER)
  {
    NatTextDigits(if n < 0 then -n else n);
  }

  /** Rendering is complete and touches nothing else, for every template and time. */
  lemma RenderMeaning(template: string, millis: int)
    ensures var out := Rendered(template, millis);
            var gaps := Gaps(template, PLACEHOLDER);
            && !Occurs(PLACEHOLDER, out)
            && Join(gaps, PLACEHOLDER) == template && Join(gaps, IntText(millis)) == out
            && (!Occurs(PLACEHOLDER, template) ==> out == template)
  {
    var out := Rendered(template, millis);
    DigitsAreForeign(millis);
    forall i | 0 <= i <= |out| ensures !StartsWith(out[i..], PLACEHOLDER) {
      NothingLeftAt(template, PLACEHOLDER, IntText(millis), i);
    }
    GapsAreKept(template, PLACEHOLDER, IntText(millis));
    if !Occurs(PLACEHOLDER, template) {
      NoOccurrenceNoGap(template, PLACEHOLDER);
    }
  }

  /** A template of one timestamp is rendered as the time in decimal digits. */
  lemma TimestampMeaning(a: string, b: string, millis: int)
    requires !Occurs(PLACEHOLDER, b) && forall i :: 0 <= i < |a| ==> a[i] != '{'
    ensures Rendered(a + "{{timestamp_ms}}" + b, millis) == a + IntText(millis) + b
  {
    hide Occurs;
    ReplacedAfter(a, "{{timestamp_ms}}" + b, IntText(millis));
    assert a + "{{timestamp_ms}}" + b == a + ("{{timestamp_ms}}" + b);
    var s := PLACEHOLDER + b;
    assert s[..|PLACEHOLDER|] == PLACEHOLDER && s[|PLACEHOLDER|..] == b;
    NoOccurrenceNoGap(b, PLACEHOLDER);
    GapsAreKept(b, PLACEHOLDER, IntText(millis));
    JoinOne(b, IntText(millis));
  }

  lemma {:induction false} ReplacedAfter(a: string, s: string, with: string)
    requires forall i :: 0 <= i < |a| ==> a[i] != '{'
    ensures ReplaceAll(a + s, PLACEHOLDER, with) == a + ReplaceAll(s, PLACEHOLDER, with)
  {
    if a == "" {
      assert a + s == s;
    } else {
      var t := a + s;
      assert t[1..] == a[1..] + s;
      assert !StartsWith(t, PLACEHOLDER) by { HeadOf(t, PLACEHOLDER); }
      ReplacedAfter(a[1..], s, with);
    }
  }
}
