/** Block scalars: a literal block gives back exactly the lines that were indented under its
    key, and what folding does to the lines of a folded block. */
module YamlBlocks {
  import opened Text
  import opened YamlText
  import opened YamlSpec

  // ---------------------------------------------------------------- literal blocks

  /** No white-space-only lines, the first non-empty line unindented, the last line non-empty. */
  predicate IsLiteral(content: seq<string>) {
    && content != [] && content[|content| - 1] != ""
    && (forall i :: 0 <= i < |content| ==> content[i] == "" || Strip(content[i]) != "")
    && (forall i :: 0 <= i < |content| && content[i] != "" && AllEmpty(content[..i]) ==> Lead(content[i]) == 0)
  }

  predicate AllEmpty(lines: seq<string>) {
    forall i :: 0 <= i < |lines| ==> lines[i] == ""
  }

  /** The content stands in lines from pos on, indented by n; an empty line may be any blank line. */
  predicate Printed(lines: seq<string>, pos: nat, content: seq<string>, n: nat) {
    && pos + |content| <= |lines|
    && forall i :: 0 <= i < |content| ==>
         if content[i] == "" then Strip(lines[pos + i]) == "" else lines[pos + i] == Spaces(n) + content[i]
  }

  function SkipBlank(lines: seq<string>, pos: nat): (p: nat)
    requires pos <= |lines|
    ensures pos <= p <= |lines|
    decreases |lines| - pos
  {
    if pos < |lines| && Strip(lines[pos]) == "" then SkipBlank(lines, pos + 1) else pos
  }

  function Empties(k: nat): seq<string> {
    seq(k, _ => "")
  }

  /** The indent of the block is known once a non-empty line has been read. */
  function IndentAfter(content: seq<string>, i: nat, n: nat): Option<nat>
    requires i <= |content|
  {
    if AllEmpty(content[..i]) then None else Some(n)
  }

  lemma {:induction false} LeadOfPadded(pad: string, s: string)
    requires forall i :: 0 <= i < |pad| ==> IsSpace(pad[i])
    ensures Lead(pad + s) == |pad| + Lead(s)
  {
    if pad == "" {
      assert pad + s == s;
    } else {
      assert (pad + s)[1..] == pad[1..] + s;
      LeadOfPadded(pad[1..], s);
    }
  }

  lemma PaddedIsNotBlank(n: nat, s: string)
    requires Strip(s) != ""
    ensures Strip(Spaces(n) + s) != "" && Lead(Spaces(n) + s) == n + Lead(s) && (Spaces(n) + s)[n..] == s
  {
    LeadOfPadded(Spaces(n), s);
    StripIsTrimmed(s);
    StripIsTrimmed(Spaces(n) + s);
  }

  lemma {:induction false} ContentLines(lines: seq<string>, pos: nat, base: nat, n: nat, content: seq<string>, i: nat)
    requires n > base && IsLiteral(content) && Printed(lines, pos, content, n) && i <= |content|
    ensures BlockLines(lines, pos + i, base, IndentAfter(content, i, n), content[..i])
         == BlockLines(lines, pos + |content|, base, Some(n), content)
    decreases |content| - i
  {
    hide Strip, Lead;
    if i == |content| {
      assert content[..i] == content;
      assert content[..i][i - 1] != "";
    } else {
      assert content[..i + 1] == content[..i] + [content[i]];
      if content[i] != "" {
        PaddedIsNotBlank(n, content[i]);
      }
      ContentLines(lines, pos, base, n, content, i + 1);
    }
  }

  lemma {:induction false} TailLines(lines: seq<string>, q: nat, base: nat, n: nat, acc: seq<string>)
    requires q <= |lines| && n > base
    requires SkipBlank(lines, q) < |lines| ==> Lead(lines[SkipBlank(lines, q)]) < n
    ensures var p := SkipBlank(lines, q); BlockLines(lines, q, base, Some(n), acc) == Parsed(acc + Empties(p - q), p)
    decreases |lines| - q
  {
    hide Strip, Lead;
    if q < |lines| && Strip(lines[q]) == "" {
      TailLines(lines, q + 1, base, n, acc + [""]);
      var k := SkipBlank(lines, q) - q;
      assert acc + [""] + Empties(k - 1) == acc + Empties(k);
    } else {
      assert acc + Empties(0) == acc;
    }
  }

  lemma {:induction false} TrimEmpties(content: seq<string>, k: nat)
    requires content != [] && content[|content| - 1] != ""
    ensures DropTrailingEmpty(content + Empties(k)) == content
  {
    if k == 0 {
      assert content + Empties(0) == content;
    } else {
      assert (content + Empties(k))[..|content| + k - 1] == content + Empties(k - 1);
      TrimEmpties(content, k - 1);
    }
  }

  lemma RawLines(lines: seq<string>, pos: nat, base: nat, n: nat, content: seq<string>)
    requires n > base && IsLiteral(content) && Printed(lines, pos, content, n)
    requires var p := SkipBlank(lines, pos + |content|); p < |lines| ==> Lead(lines[p]) < n
    ensures var p := SkipBlank(lines, pos + |content|);
            BlockLines(lines, pos, base, None, []) == Parsed(content + Empties(p - (pos + |content|)), p)
  {
    hide BlockLines, Lead, Strip, IsLiteral, Printed, SkipBlank, Empties;
    assert content[..0] == [];
    assert pos + |content| <= |lines| by { PrintedFits(lines, pos, content, n); }
    ContentLines(lines, pos, base, n, content, 0);
    TailLines(lines, pos + |content|, base, n, content);
  }

  lemma PrintedFits(lines: seq<string>, pos: nat, content: seq<string>, n: nat)
    requires Printed(lines, pos, content, n)
    ensures pos + |content| <= |lines|
  {
  }

  lemma LastIsNotEmpty(content: seq<string>)
    requires IsLiteral(content)
    ensures content != [] && content[|content| - 1] != ""
  {
  }

  /** What a block scalar is made of: the content, with the keep indicator also the blank lines that
      follow; the cursor stops at the next non-blank line. */
  lemma BlockReads(lines: seq<string>, pos: nat, base: nat, n: nat, content: seq<string>, indicator: string)
    requires n > base && IsLiteral(content) && Printed(lines, pos, content, n)
    requires var p := SkipBlank(lines, pos + |content|); p < |lines| ==> Lead(lines[p]) < n
    ensures var q := pos + |content|;
            var p := SkipBlank(lines, q);
            var kept := if EndsWith(indicator, "+") then content + Empties(p - q) else content;
            BlockScalarAt(lines, pos, indicator, base)
              == Parsed(TextOfLines(if StartsWith(indicator, ">") then Fold(kept) else kept), p)
  {
    hide BlockLines, DropTrailingEmpty, Lead, Strip, IsLiteral, Printed, SkipBlank, TextOfLines, Fold, EndsWith,
         StartsWith;
    LastIsNotEmpty(content);
    RawLines(lines, pos, base, n, content);
    TrimEmpties(content, SkipBlank(lines, pos + |content|) - (pos + |content|));
  }

  lemma Indicators()
    ensures IsBlockIndicator("|") && IsBlockIndicator("|-") && IsBlockIndicator("|+")
    ensures !EndsWith("|", "+") && !EndsWith("|-", "+") && EndsWith("|+", "+")
    ensures !StartsWith("|", ">") && !StartsWith("|-", ">") && !StartsWith("|+", ">")
  {
  }

  /** A literal block reads back: with `|` and `|-` the content with one final newline, with
      `|+` also the blank lines that follow; the cursor stops at the next non-blank line. */
  lemma LiteralReads(lines: seq<string>, pos: nat, base: nat, n: nat, content: seq<string>)
    requires n > base && IsLiteral(content) && Printed(lines, pos, content, n)
    requires var p := SkipBlank(lines, pos + |content|); p < |lines| ==> Lead(lines[p]) < n
    ensures var q := pos + |content|;
            var p := SkipBlank(lines, q);
            && EntryValue(lines, pos, base, "|") == Parsed(Str(Join(content, "\n") + "\n"), p)
            && EntryValue(lines, pos, base, "|-") == Parsed(Str(Join(content, "\n") + "\n"), p)
            && EntryValue(lines, pos, base, "|+") == Parsed(Str(Join(content + Empties(p - q), "\n") + "\n"), p)
  {
    hide BlockScalarAt, Join, Lead, IsLiteral, Printed, SkipBlank, EndsWith, StartsWith, IsBlockIndicator;
    LastIsNotEmpty(content);
    BlockReads(lines, pos, base, n, content, "|");
    BlockReads(lines, pos, base, n, content, "|-");
    BlockReads(lines, pos, base, n, content, "|+");
    Indicators();
  }

  // ---------------------------------------------------------------- where literal blocks depart from YAML

  /** The strip indicator removes the final newline, as YAML 1.2.2, section 8.1.1.2, has it, only from
      blocks without content. */
  lemma StripKeepsNewline(lines: seq<string>, pos: nat, base: nat)
    requires pos <= |lines|
    ensures var kept := DropTrailingEmpty(BlockLines(lines, pos, base, None, []).value);
            EntryValue(lines, pos, base, "|-").value == Str(Join(kept, "\n")) <==> kept == []
  {
    hide BlockLines, DropTrailingEmpty, Join;
    Indicators();
    NothingToJoin();
  }

  lemma NothingToJoin()
    ensures Join([], "\n") == ""
  {
  }

  /** The lines as the parser keeps them: those of white space only are emptied. */
  function Blanked(content: seq<string>): (r: seq<string>)
    ensures |r| == |content|
  {
    seq(|content|, i requires 0 <= i < |content| => if Strip(content[i]) == "" then "" else content[i])
  }

  /** A line of white space only, which YAML 1.2.2, section 8.1.2, keeps. */
  predicate HasWhiteLine(content: seq<string>) {
    exists i :: 0 <= i < |content| && content[i] != "" && Strip(content[i]) == ""
  }

  lemma {:induction false} JoinLength(a: seq<string>, b: seq<string>, sep: string)
    requires |a| == |b| && forall i :: 0 <= i < |a| ==> |a[i]| <= |b[i]|
    ensures |Join(a, sep)| <= |Join(b, sep)|
    ensures (exists i :: 0 <= i < |a| && |a[i]| < |b[i]|) ==> |Join(a, sep)| < |Join(b, sep)|
  {
    if |a| > 1 {
      JoinLength(a[1..], b[1..], sep);
      if i :| 0 < i < |a| && |a[i]| < |b[i]| {
        assert |a[1..][i - 1]| < |b[1..][i - 1]|;
      }
    }
  }

  lemma BlankedMeaning(content: seq<string>)
    ensures Join(Blanked(content), "\n") == Join(content, "\n") <==> !HasWhiteLine(content)
  {
    hide Join, Strip;
    var b := Blanked(content);
    JoinLength(b, content, "\n");
    if HasWhiteLine(content) {
      var i :| 0 <= i < |content| && content[i] != "" && Strip(content[i]) == "";
      assert |b[i]| < |content[i]|;
    } else {
      assert b == content by { BlankedSame(content); }
    }
  }

  lemma BlankedSame(content: seq<string>)
    requires !HasWhiteLine(content)
    ensures Blanked(content) == content
  {
    forall i | 0 <= i < |content| ensures Blanked(content)[i] == content[i] {
    }
  }

  lemma BlankedPrinted(lines: seq<string>, pos: nat, content: seq<string>, n: nat)
    requires Printed(lines, pos, content, n)
    ensures Printed(lines, pos, Blanked(content), n)
  {
    forall i | 0 <= i < |content| && Strip(content[i]) == "" ensures Strip(lines[pos + i]) == "" {
      if content[i] != "" {
        PaddedIsBlank(n, content[i]);
      }
    }
  }

  lemma PaddedIsBlank(n: nat, s: string)
    requires Strip(s) == ""
    ensures Strip(Spaces(n) + s) == ""
  {
    LeadOfPadded(Spaces(n), s);
    StripIsTrimmed(s);
    StripIsTrimmed(Spaces(n) + s);
  }

  /** A literal block reads back exactly when it has no line of white space only. */
  lemma WhiteLinesAreEmptied(lines: seq<string>, pos: nat, base: nat, n: nat, content: seq<string>)
    requires n > base && IsLiteral(Blanked(content)) && Printed(lines, pos, content, n)
    requires var p := SkipBlank(lines, pos + |content|); p < |lines| ==> Lead(lines[p]) < n
    ensures EntryValue(lines, pos, base, "|").value == Str(Join(content, "\n") + "\n") <==> !HasWhiteLine(content)
  {
    hide Join, IsLiteral, Printed, SkipBlank, Lead, EntryValue, HasWhiteLine, Blanked;
    BlankedPrinted(lines, pos, content, n);
    LiteralReads(lines, pos, base, n, Blanked(content));
    BlankedMeaning(content);
    SameStart(Join(Blanked(content), "\n"), Join(content, "\n"), "\n");
  }

  lemma SameStart(a: string, b: string, s: string)
    ensures a + s == b + s <==> a == b
  {
    if a + s == b + s {
      assert |a| == |b| && (a + s)[..|a|] == a && (b + s)[..|b|] == b;
    }
  }

  // ---------------------------------------------------------------- folding

  predicate NoEmpty(lines: seq<string>) {
    forall i :: 0 <= i < |lines| ==> lines[i] != ""
  }

  /** No two neighbouring paragraphs are both non-empty. */
  predicate Separated(paragraphs: seq<string>) {
    forall i :: 0 <= i < |paragraphs| - 1 ==> paragraphs[i] == "" || paragraphs[i + 1] == ""
  }

  lemma {:induction false} JoinIsNotEmpty(lines: seq<string>, sep: string)
    requires lines != [] && NoEmpty(lines)
    ensures Join(lines, sep) != ""
  {
    assert lines[0] != "";
  }

  /** Folding goes line by line: it commutes with a split at an empty line. */
  lemma {:induction false} FoldAtEmpty(a: seq<string>, b: seq<string>, current: seq<string>)
    ensures FoldFrom(a + [""] + b, current) == FoldFrom(a, current) + [""] + Fold(b)
  {
    var all := a + [""] + b;
    if a == [] {
      assert all[1..] == b;
    } else {
      assert all[1..] == a[1..] + [""] + b;
      if a[0] == "" {
        FoldAtEmpty(a[1..], b, []);
      } else {
        FoldAtEmpty(a[1..], b, current + [a[0]]);
      }
    }
  }

  /** A run of non-empty lines becomes one paragraph. */
  lemma {:induction false} FoldRun(lines: seq<string>, current: seq<string>)
    requires NoEmpty(lines) && current + lines != []
    ensures FoldFrom(lines, current) == [Join(current + lines, " ")]
  {
    if lines == [] {
      assert current + lines == current;
    } else {
      assert lines[0] != "";
      FoldRun(lines[1..], current + [lines[0]]);
      assert current + [lines[0]] + lines[1..] == current + lines;
    }
  }

  lemma {:induction false} FoldSeparates(lines: seq<string>, current: seq<string>)
    requires NoEmpty(current)
    ensures Separated(FoldFrom(lines, current))
    ensures current != [] ==> FoldFrom(lines, current) != [] && FoldFrom(lines, current)[0] != ""
  {
    if current != [] {
      JoinIsNotEmpty(current, " ");
    }
    if lines != [] {
      if lines[0] == "" {
        FoldSeparates(lines[1..], []);
      } else {
        FoldSeparates(lines[1..], current + [lines[0]]);
      }
    }
  }

  lemma {:induction false} FoldOfSeparated(paragraphs: seq<string>)
    requires Separated(paragraphs)
    ensures Fold(paragraphs) == paragraphs
  {
    if |paragraphs| >= 1 {
      if paragraphs[0] == "" {
        FoldOfSeparated(paragraphs[1..]);
        assert paragraphs == [""] + paragraphs[1..];
      } else if |paragraphs| == 1 {
        FoldRun(paragraphs, []);
        assert [] + paragraphs == paragraphs;
      } else {
        assert paragraphs[1] == "";
        FoldOfSeparated(paragraphs[2..]);
        FoldRun([paragraphs[0]], []);
        assert [] + [paragraphs[0]] == [paragraphs[0]];
        FoldAtEmpty([paragraphs[0]], paragraphs[2..], []);
        assert paragraphs == [paragraphs[0]] + [""] + paragraphs[2..];
      }
    }
  }

  /** Folding is idempotent on line lists and never leaves two adjacent non-empty paragraphs. */
  lemma FoldIsIdempotent(lines: seq<string>)
    ensures Fold(Fold(lines)) == Fold(lines) && Separated(Fold(lines))
  {
    FoldSeparates(lines, []);
    FoldOfSeparated(Fold(lines));
  }

  // ---------------------------------------------------------------- the indicators

  /** A style, `|` or `>`, and a chomping mark or none. */
  predicate IsIndicatorOf(ind: string, style: string, chomp: string) {
    && (style == "|" || style == ">") && (chomp == "" || chomp == "+" || chomp == "-")
    && ind == style + chomp
  }

  /** Exactly which texts after a key open a block scalar. */
  lemma IndicatorMeaning(ind: string)
    ensures IsBlockIndicator(ind) <==> exists style, chomp :: IsIndicatorOf(ind, style, chomp)
    ensures forall style, chomp :: IsIndicatorOf(ind, style, chomp) ==>
              (StartsWith(ind, ">") <==> style == ">") && (EndsWith(ind, "+") <==> chomp == "+")
  {
    if IsBlockIndicator(ind) {
      assert IsIndicatorOf(ind, ind[..1], ind[1..]);
    }
    forall style, chomp | IsIndicatorOf(ind, style, chomp)
      ensures IsBlockIndicator(ind)
      ensures (StartsWith(ind, ">") <==> style == ">") && (EndsWith(ind, "+") <==> chomp == "+")
    {
      assert ind[..1] == style && ind[1..] == chomp;
    }
  }

  /** Every block scalar: its lines, with `+` also the blank lines after it, folded under `>`, and one
      line break at the end. It ends where a line is indented less than its first one. */
  lemma BlockMeaning(
      lines: seq<string>, pos: nat, base: nat, n: nat, content: seq<string>, style: string, chomp: string)
    requires n > base && IsLiteral(content) && Printed(lines, pos, content, n)
    requires var p := SkipBlank(lines, pos + |content|); p < |lines| ==> Lead(lines[p]) < n
    requires IsIndicatorOf(style + chomp, style, chomp)
    ensures var q := pos + |content|;
            var p := SkipBlank(lines, q);
            var kept := content + (if chomp == "+" then Empties(p - q) else []);
            EntryValue(lines, pos, base, style + chomp)
              == Parsed(Str(Join(if style == ">" then Fold(kept) else kept, "\n") + "\n"), p)
  {
    hide BlockScalarAt, Join, Lead, IsLiteral, Printed, SkipBlank, EndsWith, StartsWith, IsBlockIndicator, Fold,
         IsIndicatorOf;
    LastIsNotEmpty(content);
    IndicatorMeaning(style + chomp);
    BlockReads(lines, pos, base, n, content, style + chomp);
    assert content + [] == content;
    var kept := content + (if chomp == "+" then Empties(SkipBlank(lines, pos + |content|) - (pos + |content|)) else []);
    FoldedIsNotEmpty(kept);
  }

  lemma FoldedIsNotEmpty(lines: seq<string>)
    requires lines != []
    ensures Fold(lines) != []
  {
    if lines[0] != "" {
      FoldSeparates(lines[1..], [lines[0]]);
      assert [] + [lines[0]] == [lines[0]];
    }
  }
}
