/** Folded block scalars against YAML 1.2.2, section 8.1.3: exactly when the parser folds a block
    as YAML does. */
module YamlFold {
  import opened Text
  import opened YamlText
  import opened YamlSpec
  import opened YamlBlocks

  // ---------------------------------------------------------------- folding between lines

  /** What stands for the line breaks between two non-empty lines with k empty ones between them. */
  type Break = (string, string, nat) -> string

  function Newlines(k: nat): string {
    seq(k, _ => '\n')
  }

  /** A line that starts with white space, deeper than the block. */
  predicate IsSpaced(line: string) {
    line != "" && (line[0] == ' ' || line[0] == '\t')
  }

  /** YAML: a single break becomes a blank and the first of several is dropped, except next to a
      spaced line, where all are kept. */
  function YamlBreak(x: string, y: string, k: nat): string {
    if IsSpaced(x) || IsSpaced(y) then Newlines(k + 1)
    else if k == 0 then " "
    else Newlines(k)
  }

  /** The parser: a single break becomes a blank, several are all kept. */
  function ScriptBreak(x: string, y: string, k: nat): string {
    if k == 0 then " " else Newlines(k + 1)
  }

  function LeadingEmpty(lines: seq<string>): (k: nat)
    ensures k <= |lines| && (k < |lines| ==> lines[k] != "")
    ensures forall i :: 0 <= i < k ==> lines[i] == ""
  {
    if lines != [] && lines[0] == "" then 1 + LeadingEmpty(lines[1..]) else 0
  }

  /** The text from the line lines[0] on. */
  function From(brk: Break, lines: seq<string>): string
    requires lines != []
    decreases |lines|, 0
  {
    lines[0] + After(brk, lines[0], lines[1..])
  }

  /** The text after the line prev. */
  function After(brk: Break, prev: string, lines: seq<string>): string
    decreases |lines|, 1
  {
    var k := LeadingEmpty(lines);
    if k == |lines| then "" else brk(prev, lines[k], k) + From(brk, lines[k..])
  }

  function Folded(brk: Break, lines: seq<string>): string {
    var k := LeadingEmpty(lines);
    if k == |lines| then Newlines(k) else Newlines(k) + From(brk, lines[k..])
  }

  /** The value of a folded block with these lines, the final break kept. */
  function FoldedText(brk: Break, lines: seq<string>): string {
    if lines == [] then "" else Folded(brk, lines) + "\n"
  }

  /** No empty lines at the end. */
  predicate IsTrimmed(lines: seq<string>) {
    lines != [] ==> lines[|lines| - 1] != ""
  }

  // ---------------------------------------------------------------- the parser's folding

  lemma NewlinesCons(k: nat)
    ensures Newlines(k + 1) == "\n" + Newlines(k)
  {
  }

  lemma {:induction false} FoldNotEmpty(lines: seq<string>, current: seq<string>)
    requires lines != [] || current != []
    ensures FoldFrom(lines, current) != []
  {
    if lines != [] && lines[0] != "" {
      FoldNotEmpty(lines[1..], current + [lines[0]]);
    }
  }

  lemma LeadingCons(lines: seq<string>)
    requires lines != [] && lines[0] == "" && IsTrimmed(lines)
    ensures lines[1..] != [] && IsTrimmed(lines[1..])
    ensures var k := LeadingEmpty(lines[1..]);
            k < |lines[1..]| && LeadingEmpty(lines) == k + 1 && lines[k + 1..] == lines[1..][k..]
  {
  }

  lemma FoldedEmpty(brk: Break, lines: seq<string>)
    requires lines != [] && lines[0] == "" && IsTrimmed(lines)
    ensures Folded(brk, lines) == "\n" + Folded(brk, lines[1..])
  {
    hide From, Newlines, LeadingEmpty;
    LeadingCons(lines);
    var k := LeadingEmpty(lines[1..]);
    NewlinesCons(k);
    Concat("\n", Newlines(k), From(brk, lines[1..][k..]));
  }

  lemma AfterEmpty(prev: string, lines: seq<string>)
    requires lines != [] && lines[0] == "" && IsTrimmed(lines)
    ensures After(ScriptBreak, prev, lines) == "\n\n" + Folded(ScriptBreak, lines[1..])
  {
    hide From, Newlines, LeadingEmpty;
    LeadingCons(lines);
    var k := LeadingEmpty(lines[1..]);
    NewlinesCons(k);
    NewlinesCons(k + 1);
    var text := From(ScriptBreak, lines[1..][k..]);
    assert ScriptBreak(prev, lines[k + 1], k + 1) == Newlines(k + 2);
    assert "\n" + ("\n" + Newlines(k)) + text == "\n\n" + (Newlines(k) + text);
  }

  lemma NoLeading(lines: seq<string>)
    requires lines != [] && lines[0] != ""
    ensures LeadingEmpty(lines) == 0 && Newlines(0) == "" && lines[0..] == lines
  {
  }

  lemma {:induction false} FoldStart(lines: seq<string>)
    requires lines != [] && IsTrimmed(lines)
    ensures Join(FoldFrom(lines, []), "\n") == Folded(ScriptBreak, lines)
    decreases |lines|, 1
  {
    hide Join, After, LeadingEmpty, Newlines;
    var rest := lines[1..];
    if lines[0] != "" {
      FoldOn(rest, [lines[0]]);
      JoinOne(lines[0], " ");
      assert [] + [lines[0]] == [lines[0]];
      NoLeading(lines);
      assert "" + From(ScriptBreak, lines) == From(ScriptBreak, lines);
    } else {
      LeadingCons(lines);
      FoldStart(rest);
      FoldNotEmpty(rest, []);
      FoldedEmpty(ScriptBreak, lines);
      assert FoldFrom(lines, []) == [""] + FoldFrom(rest, []);
      JoinCons("", FoldFrom(rest, []), "\n");
      assert "" + "\n" == "\n";
    }
  }

  lemma {:induction false} FoldOn(lines: seq<string>, current: seq<string>)
    requires IsTrimmed(lines) && current != [] && NoEmpty(current)
    ensures Join(FoldFrom(lines, current), "\n")
            == Join(current, " ") + After(ScriptBreak, current[|current| - 1], lines)
    decreases |lines|, 0
  {
    hide Join, From, LeadingEmpty, Newlines, Folded, After, FoldFrom;
    FoldUnfolds(lines, current);
    var text, prev := Join(current, " "), current[|current| - 1];
    if lines == [] {
      JoinOne(text, "\n");
      assert text + "" == text;
      assert After(ScriptBreak, prev, lines) == "" by { AfterNothing(prev); }
    } else if lines[0] != "" {
      FoldOn(lines[1..], current + [lines[0]]);
      JoinAppend(current, [lines[0]], " ");
      JoinOne(lines[0], " ");
      AfterLine(prev, lines);
      var after := After(ScriptBreak, lines[0], lines[1..]);
      assert text + " " + lines[0] + after == text + (" " + (lines[0] + after));
    } else {
      var rest := lines[1..];
      LeadingCons(lines);
      FoldStart(rest);
      FoldNotEmpty(rest, []);
      AfterEmpty(prev, lines);
      JoinBreak(text, FoldFrom(rest, []));
    }
  }

  lemma FoldUnfolds(lines: seq<string>, current: seq<string>)
    requires current != []
    ensures FoldFrom(lines, current)
         == if lines == [] then [Join(current, " ")]
            else if lines[0] == "" then [Join(current, " ")] + ([""] + FoldFrom(lines[1..], []))
            else FoldFrom(lines[1..], current + [lines[0]])
  {
    hide Join;
  }

  lemma JoinBreak(text: string, paragraphs: seq<string>)
    requires paragraphs != []
    ensures Join([text] + ([""] + paragraphs), "\n") == text + ("\n\n" + Join(paragraphs, "\n"))
  {
    hide Join;
    JoinCons(text, [""] + paragraphs, "\n");
    JoinCons("", paragraphs, "\n");
    var rest := Join(paragraphs, "\n");
    assert text + "\n" + ("" + "\n" + rest) == text + ("\n\n" + rest);
  }

  lemma AfterNothing(prev: string)
    ensures After(ScriptBreak, prev, []) == ""
  {
  }

  lemma AfterLine(prev: string, lines: seq<string>)
    requires lines != [] && lines[0] != ""
    ensures After(ScriptBreak, prev, lines) == " " + (lines[0] + After(ScriptBreak, lines[0], lines[1..]))
  {
    hide LeadingEmpty, Newlines;
    NoLeading(lines);
  }

  /** What the parser makes of the lines of a folded block. */
  lemma ScriptFolds(lines: seq<string>)
    requires IsTrimmed(lines)
    ensures TextOfLines(Fold(lines)) == FoldedText(ScriptBreak, lines)
  {
    if lines != [] {
      FoldStart(lines);
      FoldNotEmpty(lines, []);
    }
  }

  // ---------------------------------------------------------------- agreement

  /** Two non-empty lines with only empty ones between them. */
  predicate AreNeighbours(lines: seq<string>, i: nat, j: nat)
    requires i < j < |lines|
  {
    lines[i] != "" && lines[j] != "" && forall k :: i < k < j ==> lines[k] == ""
  }

  /** Of two lines with empty ones between them one is spaced; of two adjacent lines neither is. */
  predicate FoldsAsYaml(lines: seq<string>) {
    forall i, j :: 0 <= i < j < |lines| && AreNeighbours(lines, i, j) ==> BreaksAgree(lines[i], lines[j], j - i - 1)
  }

  predicate BreaksAgree(x: string, y: string, k: nat) {
    if k == 0 then !IsSpaced(x) && !IsSpaced(y) else IsSpaced(x) || IsSpaced(y)
  }

  predicate NewlineFree(lines: seq<string>) {
    forall i :: 0 <= i < |lines| ==> '\n' !in lines[i]
  }

  lemma {:induction false} FirstNeighbour(lines: seq<string>, m: nat)
    requires 0 < m < |lines| && AreNeighbours(lines, 0, m)
    ensures FoldsAsYaml(lines) <==> BreaksAgree(lines[0], lines[m], m - 1) && FoldsAsYaml(lines[m..])
  {
    hide BreaksAgree;
    var rest := lines[m..];
    if BreaksAgree(lines[0], lines[m], m - 1) && FoldsAsYaml(rest) {
      forall i, j | 0 <= i < j < |lines| && AreNeighbours(lines, i, j)
        ensures BreaksAgree(lines[i], lines[j], j - i - 1)
      {
        if i == 0 {
          assert j == m;
        } else {
          assert i >= m;
          assert rest[i - m] == lines[i] && rest[j - m] == lines[j];
          assert AreNeighbours(rest, i - m, j - m);
        }
      }
    }
    if FoldsAsYaml(lines) {
      forall i, j | 0 <= i < j < |rest| && AreNeighbours(rest, i, j)
        ensures BreaksAgree(rest[i], rest[j], j - i - 1)
      {
        assert forall k :: i + m <= k <= j + m ==> lines[k] == rest[k - m];
        assert AreNeighbours(lines, i + m, j + m);
      }
    }
  }

  lemma {:induction false} SkipLeading(lines: seq<string>)
    ensures FoldsAsYaml(lines) <==> FoldsAsYaml(lines[LeadingEmpty(lines)..])
  {
    if lines != [] && lines[0] == "" {
      SkipOne(lines);
      SkipLeading(lines[1..]);
      var k := LeadingEmpty(lines[1..]);
      assert lines[1..][k..] == lines[k + 1..];
    } else {
      assert lines[0..] == lines;
    }
  }

  lemma SkipOne(lines: seq<string>)
    requires lines != [] && lines[0] == ""
    ensures FoldsAsYaml(lines) <==> FoldsAsYaml(lines[1..])
  {
    hide BreaksAgree;
    var rest := lines[1..];
    assert forall k :: 0 <= k < |rest| ==> rest[k] == lines[k + 1];
    if FoldsAsYaml(rest) {
      forall i, j | 0 <= i < j < |lines| && AreNeighbours(lines, i, j)
        ensures BreaksAgree(lines[i], lines[j], j - i - 1)
      {
        assert AreNeighbours(rest, i - 1, j - 1);
      }
    }
    if FoldsAsYaml(lines) {
      forall i, j | 0 <= i < j < |rest| && AreNeighbours(rest, i, j)
        ensures BreaksAgree(rest[i], rest[j], j - i - 1)
      {
        assert AreNeighbours(lines, i + 1, j + 1);
      }
    }
  }

  /** Two texts that continue the same line differ from the first break on that differs. */
  lemma BreaksDiffer(x: string, y: string, k: nat, a: string, b: string)
    requires y != "" && '\n' !in y && !BreaksAgree(x, y, k)
    ensures ScriptBreak(x, y, k) + y + a != YamlBreak(x, y, k) + y + b
  {
    var s, t := ScriptBreak(x, y, k) + y + a, YamlBreak(x, y, k) + y + b;
    if k == 0 {
      assert s[0] == ' ' && t[0] == '\n';
    } else {
      assert s[k] == '\n' && t[k] == y[0];
      assert y[0] in y;
    }
  }

  lemma BreaksSame(x: string, y: string, k: nat)
    requires BreaksAgree(x, y, k)
    ensures ScriptBreak(x, y, k) == YamlBreak(x, y, k)
  {
  }

  lemma Cancel(p: string, a: string, b: string)
    ensures p + a == p + b <==> a == b
  {
    if p + a == p + b {
      assert (p + a)[|p|..] == a && (p + b)[|p|..] == b;
    }
  }

  lemma {:induction false} FromAgrees(lines: seq<string>)
    requires lines != [] && lines[0] != "" && NewlineFree(lines)
    ensures From(ScriptBreak, lines) == From(YamlBreak, lines) <==> FoldsAsYaml(lines)
    decreases |lines|
  {
    hide FoldsAsYaml, BreaksAgree, ScriptBreak, YamlBreak, LeadingEmpty;
    var prev, rest := lines[0], lines[1..];
    var k := LeadingEmpty(rest);
    Cancel(prev, After(ScriptBreak, prev, rest), After(YamlBreak, prev, rest));
    if k == |rest| {
      NothingAfter(prev, rest);
      assert [prev] + rest == lines;
    } else {
      var y := rest[k];
      assert rest[k..] == lines[k + 1..];
      FromAgrees(rest[k..]);
      assert forall i :: 0 < i < k + 1 ==> lines[i] == rest[i - 1];
      FirstNeighbour(lines, k + 1);
      var a, b := From(ScriptBreak, rest[k..]), From(YamlBreak, rest[k..]);
      if BreaksAgree(prev, y, k) {
        BreaksSame(prev, y, k);
        Cancel(ScriptBreak(prev, y, k), a, b);
      } else {
        BreaksDiffer(prev, y, k, After(ScriptBreak, y, rest[k..][1..]), After(YamlBreak, y, rest[k..][1..]));
        Concat(ScriptBreak(prev, y, k), y, After(ScriptBreak, y, rest[k..][1..]));
        Concat(YamlBreak(prev, y, k), y, After(YamlBreak, y, rest[k..][1..]));
      }
    }
  }

  lemma NothingAfter(prev: string, lines: seq<string>)
    requires LeadingEmpty(lines) == |lines|
    ensures FoldsAsYaml([prev] + lines)
  {
    var all := [prev] + lines;
    assert forall i :: 0 < i < |all| ==> all[i] == lines[i - 1];
  }

  /** The parser folds the lines of a block as YAML does exactly when no spaced line stands directly
      next to another line, and no empty line between two lines that are not spaced. */
  lemma FoldMeaning(lines: seq<string>)
    requires IsTrimmed(lines) && NewlineFree(lines)
    ensures TextOfLines(Fold(lines)) == FoldedText(YamlBreak, lines) <==> FoldsAsYaml(lines)
  {
    hide FoldsAsYaml, From, ScriptBreak, YamlBreak, Fold, Newlines, LeadingEmpty, TextOfLines;
    ScriptFolds(lines);
    if lines == [] {
      NothingFolds();
    } else {
      var k := LeadingEmpty(lines);
      SkipLeading(lines);
      FromAgrees(lines[k..]);
      var a, b := From(ScriptBreak, lines[k..]), From(YamlBreak, lines[k..]);
      Cancel(Newlines(k), a, b);
      SameStart(Newlines(k) + a, Newlines(k) + b, "\n");
    }
  }

  lemma NothingFolds()
    ensures FoldsAsYaml([])
  {
  }

  /** The same on a document: the value of a key with a folded block below it. */
  lemma FoldedReads(lines: seq<string>, pos: nat, base: nat, n: nat, content: seq<string>)
    requires n > base && IsLiteral(content) && Printed(lines, pos, content, n) && NewlineFree(content)
    requires var p := SkipBlank(lines, pos + |content|); p < |lines| ==> Lead(lines[p]) < n
    ensures EntryValue(lines, pos, base, ">").value == Str(FoldedText(YamlBreak, content)) <==> FoldsAsYaml(content)
  {
    hide FoldsAsYaml, FoldedText, Fold, IsLiteral, Printed, SkipBlank, NewlineFree, TextOfLines, BlockScalarAt;
    BlockReads(lines, pos, base, n, content, ">");
    LastIsNotEmpty(content);
    FoldMeaning(content);
    FoldedIndicator();
  }

  lemma FoldedIndicator()
    ensures IsBlockIndicator(">") && StartsWith(">", ">") && !EndsWith(">", "+")
  {
  }

  /** Two blocks that are not folded as YAML folds them, one for each cause. */
  lemma FoldingDeparts()
    ensures TextOfLines(Fold(["a", "", "b"])) == "a\n\nb\n" && FoldedText(YamlBreak, ["a", "", "b"]) == "a\nb\n"
    ensures TextOfLines(Fold(["a", "  b"])) == "a   b\n" && FoldedText(YamlBreak, ["a", "  b"]) == "a\n  b\n"
  {
    hide FoldsAsYaml, Fold, TextOfLines, FoldedText;
    ScriptFolds(["a", "", "b"]);
    ScriptFolds(["a", "  b"]);
    TwoLines(ScriptBreak, "a", [""], "b");
    TwoLines(YamlBreak, "a", [""], "b");
    TwoLines(ScriptBreak, "a", [], "  b");
    TwoLines(YamlBreak, "a", [], "  b");
    assert ["a"] + [""] + ["b"] == ["a", "", "b"] && ["a"] + [] + ["  b"] == ["a", "  b"];
    assert Newlines(1) == "\n" && Newlines(2) == "\n\n";
  }

  lemma FromUnfolds(brk: Break, lines: seq<string>)
    requires lines != []
    ensures From(brk, lines) == lines[0] + After(brk, lines[0], lines[1..])
  {
    hide After;
  }

  lemma AfterUnfolds(brk: Break, prev: string, lines: seq<string>)
    ensures var k := LeadingEmpty(lines);
            After(brk, prev, lines) == if k == |lines| then "" else brk(prev, lines[k], k) + From(brk, lines[k..])
  {
    hide LeadingEmpty, From;
  }

  lemma TwoLines(brk: Break, x: string, empty: seq<string>, y: string)
    requires x != "" && y != "" && AllEmpty(empty)
    ensures FoldedText(brk, [x] + empty + [y]) == x + (brk(x, y, |empty|) + y) + "\n"
  {
    hide LeadingEmpty, Newlines, From, After;
    var lines := [x] + empty + [y];
    NoLeading(lines);
    assert "" + From(brk, lines) == From(brk, lines);
    var rest := empty + [y];
    assert lines[1..] == rest && [y][1..] == [];
    FromUnfolds(brk, lines);
    FromUnfolds(brk, [y]);
    LeadingIs(empty, y);
    AfterUnfolds(brk, x, rest);
    assert rest[|empty|..] == [y];
    LeadingNone();
    AfterUnfolds(brk, y, []);
    assert y + "" == y;
    assert FoldedText(brk, lines) == Folded(brk, lines) + "\n";
  }

  lemma {:induction false} LeadingIs(empty: seq<string>, y: string)
    requires AllEmpty(empty) && y != ""
    ensures LeadingEmpty(empty + [y]) == |empty|
  {
    if empty == [] {
      assert (empty + [y])[0] == y;
    } else {
      assert (empty + [y])[1..] == empty[1..] + [y];
      LeadingIs(empty[1..], y);
    }
  }

  lemma LeadingNone()
    ensures LeadingEmpty([]) == 0
  {
  }
}
