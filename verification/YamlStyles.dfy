/** Documents that mix all block styles: at each node a scalar or a flow collection on the line, a
    literal block, items below their dash, on it, or mappings that open on it, with any indents and
    with blank and comment lines between the lines. Every such rendering parses to its tree. */
module YamlStyles {
  import opened Text
  import opened YamlText
  import opened YamlSpec
  import opened YamlPrint
  import opened YamlRoundTrip
  import opened YamlDash
  import opened YamlBlocks

  // ---------------------------------------------------------------- renderings

  /** A rendered value: on the line of its key, as a literal block, or as a block below. A literal
      block stands more + 1 deeper than its key. */
  datatype Node =
    | Inline(text: string, v: Value)
    | Literal(content: seq<string>, more: nat)
    | Items(items: seq<Item>)
    | Fields(fields: seq<Field>)

  /** An item, on the line of its dash, in a block more + 1 deeper, or as a mapping whose first entry
      stands on the line of the dash. */
  datatype Item =
    | OnDash(text: string, v: Value)
    | BelowDash(more: nat, node: Node)
    | DashFields(first: Field, rest: seq<Field>)

  /** An entry; a block stands more + 1 deeper than its key. */
  datatype Field = Field(key: string, more: nat, node: Node)

  predicate IsBlock(node: Node) {
    (node.Items? && node.items != []) || (node.Fields? && node.fields != [])
  }

  function ValueOf(node: Node): Value
    decreases node, 2
  {
    match node
    case Inline(_, v) => v
    case Literal(content, _) => Str(Join(content, "\n") + "\n")
    case Items(items) => Seq(ItemValues(items))
    case Fields(fields) => Map(EntriesOf(fields))
  }

  function ItemValue(item: Item): Value
    decreases item, 2
  {
    match item
    case OnDash(_, v) => v
    case BelowDash(_, node) => ValueOf(node)
    case DashFields(first, rest) => Map([EntryOf(first)] + EntriesOf(rest))
  }

  function EntryOf(f: Field): Entry
    decreases f, 2
  {
    Entry(f.key, ValueOf(f.node))
  }

  function ItemValues(items: seq<Item>): seq<Value>
    decreases items, 1
  {
    if items == [] then [] else [ItemValue(items[0])] + ItemValues(items[1..])
  }

  function EntriesOf(fields: seq<Field>): seq<Entry>
    decreases fields, 1
  {
    if fields == [] then [] else [EntryOf(fields[0])] + EntriesOf(fields[1..])
  }

  // ---------------------------------------------------------------- well-formed renderings

  /** The value of a text with neither key nor dash: flow by its first bracket, or a scalar. */
  function TextValue(text: string): Value {
    if StartsWith(text, "[") then FlowSeqOf(text)
    else if StartsWith(text, "{") then FlowMapOf(text)
    else ScalarOf(text)
  }

  /** After a key, where a comment may follow. */
  predicate IsEntryText(text: string, v: Value) {
    var core := WithoutComment(text);
    Trimmed(text) && core != "" && !IsBlockIndicator(core) && TextValue(core) == v
  }

  predicate IsItemText(text: string, v: Value) {
    Trimmed(text) && !OpensDashMapping(text) && TextValue(text) == v
  }

  /** After a key on the line of a dash only scalars and blocks are read. */
  predicate IsFirstNode(node: Node) {
    match node
    case Inline(text, v) => Trimmed(text) && WithoutComment(text) != "" && ScalarOf(WithoutComment(text)) == v
    case Literal(_, _) => false
    case _ => IsBlock(node)
  }

  predicate IsValid(node: Node)
    decreases node, 2
  {
    match node
    case Inline(text, v) => IsEntryText(text, v)
    case Literal(content, _) => IsLiteral(content)
    case Items(items) => items != [] && ItemsValid(items)
    case Fields(fields) => fields != [] && FieldsValid(fields) && DistinctKeys(EntriesOf(fields))
  }

  predicate ItemIsValid(item: Item)
    decreases item, 2
  {
    match item
    case OnDash(text, v) => IsItemText(text, v)
    case BelowDash(_, node) => IsBlock(node) && IsValid(node)
    case DashFields(first, rest) =>
      && IsWordKey(first.key) && IsFirstNode(first.node) && (IsBlock(first.node) ==> IsValid(first.node))
      && FieldsValid(rest) && DistinctKeys([EntryOf(first)] + EntriesOf(rest))
  }

  predicate FieldIsValid(f: Field)
    decreases f, 2
  {
    PrintableKey(f.key) && IsValid(f.node)
  }

  predicate ItemsValid(items: seq<Item>)
    decreases items, 1
  {
    items != [] ==> ItemIsValid(items[0]) && ItemsValid(items[1..])
  }

  predicate FieldsValid(fields: seq<Field>)
    decreases fields, 1
  {
    fields != [] ==> FieldIsValid(fields[0]) && FieldsValid(fields[1..])
  }

  // ---------------------------------------------------------------- standing in the lines

  /** The line of a key. */
  function HeadOf(f: Field): string {
    KeyText(f.key) + ":" + (match f.node
                            case Inline(text, _) => " " + text
                            case Literal(_, _) => " |"
                            case _ => "")
  }

  /** The end of a line with this body at indent d, if it is the next significant one. */
  function LineEnd(lines: seq<string>, pos: nat, d: nat, body: string): (end: Option<nat>)
    requires pos <= |lines|
    ensures end.Some? ==> pos < end.value <= |lines|
  {
    var p := SkipNoise(lines, pos);
    if p < |lines| && lines[p] == Indented(d, body) then Some(p + 1) else None
  }

  /** Where a rendering that stands in the lines from pos on at indent d ends; None if it does not
      stand there. */
  function BlockEnd(node: Node, lines: seq<string>, pos: nat, d: nat): (end: Option<nat>)
    requires pos <= |lines|
    ensures end.Some? ==> pos <= end.value <= |lines|
    decreases node, 2
  {
    match node
    case Items(items) => ItemsEnd(items, lines, pos, d)
    case Fields(fields) => FieldsEnd(fields, lines, pos, d)
    case _ => None
  }

  function ItemsEnd(items: seq<Item>, lines: seq<string>, pos: nat, d: nat): (end: Option<nat>)
    requires pos <= |lines|
    ensures end.Some? ==> pos <= end.value <= |lines|
    decreases items, 1
  {
    if items == [] then Some(pos)
    else match ItemEnd(items[0], lines, pos, d)
      case None => None
      case Some(q) => ItemsEnd(items[1..], lines, q, d)
  }

  function ItemEnd(item: Item, lines: seq<string>, pos: nat, d: nat): (end: Option<nat>)
    requires pos <= |lines|
    ensures end.Some? ==> pos <= end.value <= |lines|
    decreases item, 2
  {
    match item
    case OnDash(text, _) => LineEnd(lines, pos, d, "- " + text)
    case BelowDash(more, node) =>
      (match LineEnd(lines, pos, d, "-")
       case None => None
       case Some(q) => BlockEnd(node, lines, q, d + 1 + more))
    case DashFields(first, rest) =>
      (match LineEnd(lines, pos, d, "- " + HeadOf(first))
       case None => None
       case Some(q) =>
         match BelowEnd(first, lines, q, d + 2)
         case None => None
         case Some(r) => FieldsEnd(rest, lines, r, d + 2))
  }

  function FieldsEnd(fields: seq<Field>, lines: seq<string>, pos: nat, d: nat): (end: Option<nat>)
    requires pos <= |lines|
    ensures end.Some? ==> pos <= end.value <= |lines|
    decreases fields, 1
  {
    if fields == [] then Some(pos)
    else match LineEnd(lines, pos, d, HeadOf(fields[0]))
      case None => None
      case Some(q) =>
        match BelowEnd(fields[0], lines, q, d)
        case None => None
        case Some(r) => FieldsEnd(fields[1..], lines, r, d)
  }

  /** The end of what stands below the line of a key at indent d. A literal block takes every blank
      line after it, so a line that is not blank and not deeper than the key must follow. */
  function BelowEnd(f: Field, lines: seq<string>, pos: nat, d: nat): (end: Option<nat>)
    requires pos <= |lines|
    ensures end.Some? ==> pos <= end.value <= |lines|
    decreases f, 2
  {
    match f.node
    case Inline(_, _) => Some(pos)
    case Literal(content, more) =>
      if Printed(lines, pos, content, d + 1 + more) && LiteralStops(lines, pos + |content|, d)
      then Some(pos + |content|)
      else None
    case _ => BlockEnd(f.node, lines, pos, d + 1 + f.more)
  }

  predicate LiteralStops(lines: seq<string>, pos: nat, d: nat)
    requires pos <= |lines|
  {
    var p := SkipBlank(lines, pos);
    p < |lines| ==> Lead(lines[p]) <= d
  }

  // ---------------------------------------------------------------- cursors

  /** The next significant line, if any, is indented by less than d. */
  predicate StopsAt(lines: seq<string>, pos: nat, d: nat)
    requires pos <= |lines|
  {
    var p := SkipNoise(lines, pos);
    p == |lines| || Lead(lines[p]) < d
  }

  /** Nothing significant stands between the two positions. */
  predicate SameCursor(lines: seq<string>, a: nat, b: nat)
    requires a <= |lines| && b <= |lines|
  {
    SkipNoise(lines, a) == SkipNoise(lines, b)
  }

  lemma SkipTwice(lines: seq<string>, pos: nat)
    requires pos <= |lines|
    ensures SkipNoise(lines, SkipNoise(lines, pos)) == SkipNoise(lines, pos)
  {
  }

  lemma {:induction false} BlankIsNoise(lines: seq<string>, pos: nat)
    requires pos <= |lines|
    ensures SameCursor(lines, SkipBlank(lines, pos), pos)
    decreases |lines| - pos
  {
    hide Strip;
    if pos < |lines| && Strip(lines[pos]) == "" {
      BlankIsNoise(lines, pos + 1);
    }
  }

  lemma FromCursor(lines: seq<string>, a: nat, b: nat, d: nat, items: seq<Value>, entries: seq<Entry>)
    requires a <= |lines| && b <= |lines| && SameCursor(lines, a, b)
    ensures SequenceAt(lines, a, d, items) == SequenceAt(lines, b, d, items)
    ensures MappingAt(lines, a, d, entries) == MappingAt(lines, b, d, entries)
    ensures Continuation(lines, a, d, entries) == Continuation(lines, b, d, entries)
    ensures ValueAt(lines, a) == ValueAt(lines, b)
  {
    hide MatchKey, EntryValue, ItemAt, PlainLines, Lead, Strip, LStrip, DictSet, WithoutComment, OpensKey;
  }

  /** The line found by LineEnd, as the parser sees it. */
  lemma LineIsSeen(lines: seq<string>, pos: nat, d: nat, body: string)
    requires pos <= |lines| && Trimmed(body) && LineEnd(lines, pos, d, body).Some?
    ensures var p := SkipNoise(lines, pos);
            && p < |lines| && LineEnd(lines, pos, d, body) == Some(p + 1)
            && Lead(lines[p]) == d && Strip(lines[p]) == body && LStrip(lines[p]) == body
  {
    hide Lead, Strip, LStrip, Trimmed;
    StripIndented(d, body);
  }

  // ---------------------------------------------------------------- lines of items and entries

  lemma DashLine(text: string)
    requires Trimmed(text)
    ensures Trimmed("- " + text) && Strip(("- " + text)[1..]) == text && StartsWith("- " + text, "-")
    ensures StartsWith("- " + text, "- ")
  {
    hide Strip;
    assert ("- " + text)[1..] == Spaces(1) + text;
    StripIndented(1, text);
  }

  lemma BareDash()
    ensures Trimmed("-") && Strip("-"[1..]) == "" && StartsWith("-", "-")
  {
  }

  lemma ItemTextReads(lines: seq<string>, pos: nat, d: nat, text: string, v: Value)
    requires pos <= |lines| && IsItemText(text, v)
    ensures ItemAt(lines, pos, d, text) == Parsed(v, pos)
  {
    hide OpensDashMapping, ScalarOf, FlowSeqOf, FlowMapOf;
  }

  lemma EntryTextReads(lines: seq<string>, pos: nat, d: nat, text: string, v: Value)
    requires pos <= |lines| && IsEntryText(text, v)
    ensures EntryValue(lines, pos, d, WithoutComment(text)) == Parsed(v, pos)
  {
    hide WithoutComment, ScalarOf, FlowSeqOf, FlowMapOf, IsBlockIndicator;
  }

  lemma BarIsPlain()
    ensures Trimmed("|") && WithoutComment("|") == "|"
  {
    Uncommented("|");
  }

  /** What follows the colon on the line of a key. */
  function AfterColon(f: Field): string {
    match f.node
    case Inline(text, _) => text
    case Literal(_, _) => "|"
    case _ => ""
  }

  lemma HeadReads(f: Field)
    requires PrintableKey(f.key) && (f.node.Inline? ==> Trimmed(f.node.text))
    ensures var head := HeadOf(f);
            && Trimmed(head) && head[0] !in "-#" && OpensKey(head)
            && MatchKey(head) == Some(KeyLine(f.key, AfterColon(f)))
  {
    hide OpensKey, MatchKey, KeyText, LStrip, PrintableKey;
    var text := AfterColon(f);
    BarIsPlain();
    if text == "" {
      KeyReads(f.key, "");
      KeyOpens(f.key, "");
      NothingToStrip();
      assert HeadOf(f) == KeyText(f.key) + ":" + "";
    } else {
      KeyReads(f.key, " " + text);
      KeyOpens(f.key, " " + text);
      StripIndented(1, text);
      assert Spaces(1) + text == " " + text;
      assert HeadOf(f) == KeyText(f.key) + ":" + (" " + text);
    }
  }

  lemma NothingToStrip()
    ensures LStrip("") == "" && WithoutComment("") == ""
  {
  }

  // ---------------------------------------------------------------- where blocks start

  lemma ItemStarts(item: Item, lines: seq<string>, pos: nat, d: nat)
    requires pos <= |lines| && ItemIsValid(item) && ItemEnd(item, lines, pos, d).Some?
    ensures var p := SkipNoise(lines, pos);
            && p < |lines| && Lead(lines[p]) == d && StartsWith(Strip(lines[p]), "-")
            && (StartsWith(Strip(lines[p]), "- ") || Strip(lines[p]) == "-")
  {
    hide HeadOf, Trimmed, BlockEnd, FieldsEnd, BelowEnd, OpensKey, MatchKey, LineEnd, Lead, Strip, StartsWith,
         IsValid, FieldsValid, OpensDashMapping, TextValue, DistinctKeys, EntriesOf, IsWordKey, PrintableKey;
    match item
    case OnDash(text, _) =>
      DashLine(text);
      LineIsSeen(lines, pos, d, "- " + text);
    case BelowDash(_, _) =>
      BareDash();
      LineIsSeen(lines, pos, d, "-");
    case DashFields(first, _) =>
      WordIsPrintable(first.key);
      HeadReads(first);
      DashLine(HeadOf(first));
      LineIsSeen(lines, pos, d, "- " + HeadOf(first));
  }

  lemma WordIsPrintable(key: string)
    requires IsWordKey(key)
    ensures PrintableKey(key)
  {
  }

  lemma FieldStarts(f: Field, lines: seq<string>, pos: nat, d: nat)
    requires pos <= |lines| && FieldIsValid(f) && LineEnd(lines, pos, d, HeadOf(f)).Some?
    ensures var p := SkipNoise(lines, pos);
            && p < |lines| && LineEnd(lines, pos, d, HeadOf(f)) == Some(p + 1)
            && Lead(lines[p]) == d && OpensKey(Strip(lines[p]))
            && !StartsWith(Strip(lines[p]), "- ") && Strip(lines[p]) != "-"
            && MatchKey(LStrip(lines[p])) == Some(KeyLine(f.key, AfterColon(f)))
  {
    hide HeadOf, OpensKey, MatchKey, LineEnd, Lead, Strip, LStrip, PrintableKey, WithoutComment, TextValue, IsLiteral;
    HeadReads(f);
    LineIsSeen(lines, pos, d, HeadOf(f));
  }

  /** After an item or an entry at indent d comes nothing deeper. */
  lemma MoreItemsStop(items: seq<Item>, lines: seq<string>, pos: nat, d: nat, next: nat)
    requires pos <= |lines| && ItemsValid(items) && ItemsEnd(items, lines, pos, d) == Some(next)
    requires StopsAt(lines, next, d)
    ensures StopsAt(lines, pos, d + 1)
  {
    hide ItemEnd, ItemIsValid, Lead;
    if items != [] {
      ItemStarts(items[0], lines, pos, d);
    }
  }

  lemma MoreFieldsStop(fields: seq<Field>, lines: seq<string>, pos: nat, d: nat, next: nat)
    requires pos <= |lines| && FieldsValid(fields) && FieldsEnd(fields, lines, pos, d) == Some(next)
    requires StopsAt(lines, next, d)
    ensures StopsAt(lines, pos, d + 1)
  {
    hide BelowEnd, FieldIsValid, Lead, LineEnd, HeadOf;
    if fields != [] {
      FieldStarts(fields[0], lines, pos, d);
    }
  }

  // ---------------------------------------------------------------- reading

  lemma {:induction false} BlockIsRead(node: Node, lines: seq<string>, pos: nat, d: nat, next: nat)
    requires pos <= |lines| && IsBlock(node) && IsValid(node)
    requires BlockEnd(node, lines, pos, d) == Some(next) && StopsAt(lines, next, d)
    ensures var r := ValueAt(lines, pos); r.value == ValueOf(node) && SameCursor(lines, r.pos, next)
    ensures var p := SkipNoise(lines, pos); p < |lines| && Lead(lines[p]) == d
    decreases node, 3
  {
    hide OpensKey, Strip, Lead, SequenceAt, MappingAt, ItemsEnd, FieldsEnd, SameCursor, StopsAt, StartsWith, LineEnd,
         ItemIsValid, FieldIsValid, ItemEnd, BelowEnd, PlainLines, HeadOf;
    var p := SkipNoise(lines, pos);
    assert SameCursor(lines, p, pos) by { CursorSkips(lines, pos); }
    if node.Items? {
      ItemsAreRead(node.items, lines, pos, d, [], next);
      FirstOfItems(node.items, lines, pos, d);
      ItemStarts(node.items[0], lines, pos, d);
      FromCursor(lines, p, pos, d, [], []);
      assert [] + ItemValues(node.items) == ItemValues(node.items);
    } else {
      FieldsAreRead(node.fields, lines, pos, d, [], next);
      FirstOfFields(node.fields, lines, pos, d);
      FieldStarts(node.fields[0], lines, pos, d);
      FromCursor(lines, p, pos, d, [], []);
      assert [] + EntriesOf(node.fields) == EntriesOf(node.fields);
    }
  }

  lemma CursorSkips(lines: seq<string>, pos: nat)
    requires pos <= |lines|
    ensures SameCursor(lines, SkipNoise(lines, pos), pos)
  {
    SkipTwice(lines, pos);
  }

  lemma FirstOfItems(items: seq<Item>, lines: seq<string>, pos: nat, d: nat)
    requires pos <= |lines| && items != [] && ItemsValid(items) && ItemsEnd(items, lines, pos, d).Some?
    ensures ItemIsValid(items[0]) && ItemEnd(items[0], lines, pos, d).Some?
  {
    hide ItemIsValid, ItemEnd;
  }

  lemma FirstOfFields(fields: seq<Field>, lines: seq<string>, pos: nat, d: nat)
    requires pos <= |lines| && fields != [] && FieldsValid(fields) && FieldsEnd(fields, lines, pos, d).Some?
    ensures FieldIsValid(fields[0]) && LineEnd(lines, pos, d, HeadOf(fields[0])).Some?
  {
    hide FieldIsValid, LineEnd, BelowEnd, HeadOf;
  }

  /** A block below a dash or a key at indent base. */
  lemma {:induction false} NestedIsRead(node: Node, lines: seq<string>, pos: nat, base: nat, d: nat, next: nat)
    requires pos <= |lines| && IsBlock(node) && IsValid(node) && base < d
    requires BlockEnd(node, lines, pos, d) == Some(next) && StopsAt(lines, next, d)
    ensures var r := NestedValue(lines, pos, base); r.value == ValueOf(node) && SameCursor(lines, r.pos, next)
    decreases node, 4
  {
    hide Lead, BlockEnd, ValueAt, IsValid, StopsAt, SameCursor, ValueOf;
    BlockIsRead(node, lines, pos, d, next);
    assert SameCursor(lines, SkipNoise(lines, pos), pos) by { CursorSkips(lines, pos); }
    FromCursor(lines, SkipNoise(lines, pos), pos, d, [], []);
  }

  lemma {:induction false} ItemsAreRead(
      items: seq<Item>, lines: seq<string>, pos: nat, d: nat, acc: seq<Value>, next: nat)
    requires pos <= |lines| && ItemsValid(items) && ItemsEnd(items, lines, pos, d) == Some(next)
    requires StopsAt(lines, next, d)
    ensures var r := SequenceAt(lines, pos, d, acc);
            r.value == acc + ItemValues(items) && SameCursor(lines, r.pos, next)
    decreases items, 1
  {
    hide ItemAt, Lead, Strip, ItemEnd, ItemIsValid, ItemValue, SequenceAt, StopsAt, SameCursor, StartsWith;
    if items == [] {
      SequenceStops(lines, pos, d, acc);
      assert acc + ItemValues(items) == acc;
    } else {
      var item, others := items[0], items[1..];
      var q := ItemEnd(item, lines, pos, d).value;
      MoreItemsStop(others, lines, q, d, next);
      ItemStarts(item, lines, pos, d);
      var r := ItemIsRead(item, lines, pos, d, q);
      var v := ItemValue(item);
      SequenceStep(lines, pos, d, acc, v, r);
      FromCursor(lines, r, q, d, acc + [v], []);
      ItemsAreRead(others, lines, q, d, acc + [v], next);
      assert acc + [v] + ItemValues(others) == acc + ItemValues(items);
    }
  }

  lemma SequenceStops(lines: seq<string>, pos: nat, d: nat, acc: seq<Value>)
    requires pos <= |lines| && StopsAt(lines, pos, d)
    ensures var r := SequenceAt(lines, pos, d, acc); r.value == acc && SameCursor(lines, r.pos, pos)
  {
    hide Lead, Strip, ItemAt;
    CursorSkips(lines, pos);
  }

  lemma SequenceStep(lines: seq<string>, pos: nat, d: nat, acc: seq<Value>, v: Value, r: nat)
    requires pos <= |lines|
    requires var p := SkipNoise(lines, pos);
             && p < |lines| && Lead(lines[p]) == d && StartsWith(Strip(lines[p]), "-")
             && ItemAt(lines, p + 1, d, Strip(Strip(lines[p])[1..])) == Parsed(v, r)
    ensures r <= |lines| && SequenceAt(lines, pos, d, acc) == SequenceAt(lines, r, d, acc + [v])
  {
    hide Lead, Strip, ItemAt, StartsWith;
  }

  lemma {:induction false} ItemIsRead(item: Item, lines: seq<string>, pos: nat, d: nat, next: nat) returns (r: nat)
    requires pos <= |lines| && ItemIsValid(item) && ItemEnd(item, lines, pos, d) == Some(next)
    requires StopsAt(lines, next, d + 1)
    ensures var p := SkipNoise(lines, pos);
            && p < r <= |lines| && SameCursor(lines, r, next)
            && ItemAt(lines, p + 1, d, Strip(Strip(lines[p])[1..])) == Parsed(ItemValue(item), r)
    decreases item, 3
  {
    hide Strip, Lead, ItemAt, OpensKey, MatchKey, NestedValue, BlockEnd, IsValid, HeadOf, StopsAt, Trimmed, LineEnd,
         FieldsEnd, BelowEnd, Continuation, DistinctKeys, IsFirstNode, FieldsValid, SameCursor, ValueOf, EntriesOf,
         EntryOf;
    var p := SkipNoise(lines, pos);
    match item
    case OnDash(text, v) =>
      assert Trimmed(text);
      DashLine(text);
      LineIsSeen(lines, pos, d, "- " + text);
      ItemTextReads(lines, p + 1, d, text, v);
      r := p + 1;
      assert SameCursor(lines, r, next) by { SameIsSame(lines, r); }
    case BelowDash(more, node) =>
      BareDash();
      LineIsSeen(lines, pos, d, "-");
      StopsDeeper(lines, next, d + 1, d + 1 + more);
      NestedIsRead(node, lines, p + 1, d, d + 1 + more, next);
      ItemAtNested(lines, p + 1, d);
      r := NestedValue(lines, p + 1, d).pos;
    case DashFields(first, rest) =>
      hide ItemAt, HeadOf, NestedValue;
      WordIsPrintable(first.key);
      FirstIsTrimmed(first.node);
      HeadReads(first);
      DashLine(HeadOf(first));
      LineIsSeen(lines, pos, d, "- " + HeadOf(first));
      var q := BelowEnd(first, lines, p + 1, d + 2).value;
      StopsDeeper(lines, next, d + 1, d + 2);
      r := DashFieldsAreRead(first, rest, lines, p + 1, d, q, next);
  }

  lemma {:induction false} DashFieldsAreRead(
      first: Field, rest: seq<Field>, lines: seq<string>, pos: nat, d: nat, q: nat, next: nat) returns (r: nat)
    requires pos <= |lines| && IsWordKey(first.key) && IsFirstNode(first.node)
    requires (IsBlock(first.node) ==> IsValid(first.node))
    requires FieldsValid(rest) && DistinctKeys([EntryOf(first)] + EntriesOf(rest))
    requires BelowEnd(first, lines, pos, d + 2) == Some(q) && FieldsEnd(rest, lines, q, d + 2) == Some(next)
    requires StopsAt(lines, next, d + 2)
    ensures pos <= r <= |lines| && SameCursor(lines, r, next)
    ensures ItemAt(lines, pos, d, HeadOf(first)) == Parsed(Map([EntryOf(first)] + EntriesOf(rest)), r)
    decreases DashFields(first, rest), 2
  {
    hide ItemAt, HeadOf, StopsAt, FieldsEnd, BelowEnd, Continuation, DistinctKeys, IsFirstNode, IsValid, FieldsValid,
         SameCursor, EntriesOf, EntryOf, IsWordKey;
    MoreFieldsStop(rest, lines, q, d + 2, next);
    var s := FirstIsRead(first, lines, pos, d, q);
    FromCursor(lines, s, q, d + 2, [], [EntryOf(first)]);
    ContinuationIsRead(rest, lines, q, d + 2, [EntryOf(first)], next);
    r := Continuation(lines, q, d + 2, [EntryOf(first)]).pos;
  }

  lemma SameIsSame(lines: seq<string>, pos: nat)
    requires pos <= |lines|
    ensures SameCursor(lines, pos, pos)
  {
  }

  lemma StopsDeeper(lines: seq<string>, pos: nat, d: nat, e: nat)
    requires pos <= |lines| && StopsAt(lines, pos, d) && d <= e
    ensures StopsAt(lines, pos, e)
  {
    hide Lead;
  }

  lemma FirstIsTrimmed(node: Node)
    requires IsFirstNode(node)
    ensures node.Inline? ==> Trimmed(node.text)
  {
    hide Trimmed, WithoutComment, ScalarOf;
  }

  /** The entry on the line of a dash. */
  lemma {:induction false} FirstIsRead(f: Field, lines: seq<string>, pos: nat, d: nat, next: nat) returns (r: nat)
    requires pos <= |lines| && IsWordKey(f.key) && IsFirstNode(f.node) && (IsBlock(f.node) ==> IsValid(f.node))
    requires BelowEnd(f, lines, pos, d + 2) == Some(next) && StopsAt(lines, next, d + 3)
    ensures r <= |lines| && SameCursor(lines, r, next)
    ensures ItemAt(lines, pos, d, HeadOf(f)) == AsMap(Continuation(lines, r, d + 2, [EntryOf(f)]))
    decreases f, 3
  {
    hide Strip, Lead, OpensKey, MatchKey, NestedValue, BlockEnd, IsValid, HeadOf, StopsAt, Trimmed, Continuation,
         SameCursor, OpensDashMapping, WithoutComment, ScalarOf, ItemAt, DashMapping;
    WordIsPrintable(f.key);
    HeadReads(f);
    HeadOpensMapping(f);
    DashItem(lines, pos, d, HeadOf(f));
    match f.node
    case Inline(text, v) =>
      r := pos;
      assert SameCursor(lines, r, next) by { SameIsSame(lines, r); }
      FirstScalar(lines, pos, d + 2, HeadOf(f), f.key, text);
    case Literal(_, _) => assert false;
    case _ =>
      StopsDeeper(lines, next, d + 3, d + 3 + f.more);
      NestedIsRead(f.node, lines, pos, d + 1, d + 3 + f.more, next);
      r := NestedValue(lines, pos, d + 1).pos;
      FirstNested(lines, pos, d + 2, HeadOf(f), f.key);
  }

  lemma DashItem(lines: seq<string>, pos: nat, d: nat, head: string)
    requires pos <= |lines| && head != "" && OpensDashMapping(head)
    ensures ItemAt(lines, pos, d, head) == AsMap(DashMapping(lines, pos, d + 2, head))
  {
    hide OpensDashMapping, DashMapping;
  }

  lemma FirstScalar(lines: seq<string>, pos: nat, cont: nat, head: string, key: string, text: string)
    requires pos <= |lines| && MatchKey(head) == Some(KeyLine(key, text)) && WithoutComment(text) != ""
    ensures DashMapping(lines, pos, cont, head)
         == Continuation(lines, pos, cont, [Entry(key, ScalarOf(WithoutComment(text)))])
  {
    hide MatchKey, WithoutComment, ScalarOf, Continuation;
  }

  lemma FirstNested(lines: seq<string>, pos: nat, cont: nat, head: string, key: string)
    requires pos <= |lines| && cont > 0 && MatchKey(head) == Some(KeyLine(key, ""))
    ensures var v := NestedValue(lines, pos, cont - 1);
            DashMapping(lines, pos, cont, head) == Continuation(lines, v.pos, cont, [Entry(key, v.value)])
  {
    hide MatchKey, ScalarOf, Continuation, NestedValue;
    NothingToStrip();
  }

  lemma HeadOpensMapping(f: Field)
    requires IsWordKey(f.key)
    ensures OpensDashMapping(HeadOf(f)) && HeadOf(f) != ""
  {
    var head := HeadOf(f);
    assert head[0] == f.key[0] && IsWord(f.key[0]);
    assert head[|f.key|] == ':';
  }

  /** The value of an entry, on its line or below. */
  lemma {:induction false} EntryIsRead(f: Field, lines: seq<string>, pos: nat, d: nat, next: nat) returns (r: nat)
    requires pos <= |lines| && FieldIsValid(f) && BelowEnd(f, lines, pos, d) == Some(next)
    requires StopsAt(lines, next, d + 1)
    ensures r <= |lines| && SameCursor(lines, r, next)
    ensures EntryValue(lines, pos, d, WithoutComment(AfterColon(f))) == Parsed(ValueOf(f.node), r)
    decreases f, 3
  {
    hide Lead, NestedValue, BlockEnd, StopsAt, SameCursor, WithoutComment, EntryValue, IsEntryText, IsLiteral, Printed,
         SkipBlank, PrintableKey, Join;
    match f.node
    case Inline(text, v) =>
      EntryTextReads(lines, pos, d, text, v);
      r := pos;
      assert SameCursor(lines, r, next) by { SameIsSame(lines, r); }
    case Literal(content, more) =>
      BarIsPlain();
      LiteralReads(lines, pos, d, d + 1 + more, content);
      r := SkipBlank(lines, next);
      BlankIsNoise(lines, next);
    case _ =>
      StopsDeeper(lines, next, d + 1, d + 1 + f.more);
      NestedIsRead(f.node, lines, pos, d, d + 1 + f.more, next);
      EntryValueNested(lines, pos, d);
      NothingToStrip();
      r := NestedValue(lines, pos, d).pos;
  }

  lemma {:induction false} FieldsAreRead(
      fields: seq<Field>, lines: seq<string>, pos: nat, d: nat, acc: seq<Entry>, next: nat)
    requires pos <= |lines| && FieldsValid(fields) && FieldsEnd(fields, lines, pos, d) == Some(next)
    requires StopsAt(lines, next, d)
    requires DistinctKeys(acc + EntriesOf(fields))
    ensures var r := MappingAt(lines, pos, d, acc); r.value == acc + EntriesOf(fields) && SameCursor(lines, r.pos, next)
    decreases fields, 1
  {
    hide EntryValue, Lead, Strip, LStrip, MatchKey, WithoutComment, DictSet, HeadOf, BelowEnd, LineEnd, FieldIsValid,
         EntryOf, DistinctKeys, HasKey, AfterColon, MappingAt, Continuation, StopsAt, SameCursor, StartsWith,
         OpensKey;
    if fields == [] {
      FieldsStop(lines, pos, d, acc);
      assert acc + EntriesOf(fields) == acc;
    } else {
      var f, others := fields[0], fields[1..];
      FieldStarts(f, lines, pos, d);
      var p := SkipNoise(lines, pos);
      var q := BelowEnd(f, lines, p + 1, d).value;
      MoreFieldsStop(others, lines, q, d, next);
      var r := EntryIsRead(f, lines, p + 1, d, q);
      var e := EntryOf(f);
      NewField(acc, e, EntriesOf(others));
      FieldEntry(f);
      FieldStep(lines, pos, d, acc, e, AfterColon(f), r);
      FromCursor(lines, r, q, d, [], acc + [e]);
      assert acc + [e] + EntriesOf(others) == acc + EntriesOf(fields);
      FieldsAreRead(others, lines, q, d, acc + [e], next);
    }
  }

  lemma FieldsStop(lines: seq<string>, pos: nat, d: nat, acc: seq<Entry>)
    requires pos <= |lines| && StopsAt(lines, pos, d)
    ensures var r := MappingAt(lines, pos, d, acc); r.value == acc && SameCursor(lines, r.pos, pos)
    ensures var r := Continuation(lines, pos, d, acc); r.value == acc && SameCursor(lines, r.pos, pos)
  {
    hide Lead, Strip, LStrip, MatchKey, EntryValue, DictSet, WithoutComment;
    CursorSkips(lines, pos);
  }

  lemma FieldStep(lines: seq<string>, pos: nat, d: nat, acc: seq<Entry>, e: Entry, rest: string, r: nat)
    requires pos <= |lines| && !HasKey(acc, e.key)
    requires var p := SkipNoise(lines, pos);
             && p < |lines| && Lead(lines[p]) == d && !StartsWith(Strip(lines[p]), "- ")
             && MatchKey(LStrip(lines[p])) == Some(KeyLine(e.key, rest))
             && EntryValue(lines, p + 1, d, WithoutComment(rest)) == Parsed(e.val, r)
    ensures r <= |lines| && MappingAt(lines, pos, d, acc) == MappingAt(lines, r, d, acc + [e])
    ensures Continuation(lines, pos, d, acc) == Continuation(lines, r, d, acc + [e])
  {
    hide Lead, Strip, LStrip, MatchKey, EntryValue, DictSet, WithoutComment, StartsWith;
    DictSetNew(acc, e.key, e.val);
    assert Entry(e.key, e.val) == e;
  }

  lemma FieldEntry(f: Field)
    ensures EntryOf(f) == Entry(f.key, ValueOf(f.node))
  {
  }

  lemma NewField(acc: seq<Entry>, e: Entry, rest: seq<Entry>)
    requires DistinctKeys(acc + ([e] + rest))
    ensures !HasKey(acc, e.key)
  {
    var all := acc + ([e] + rest);
    assert all[|acc|] == e;
    assert forall i :: 0 <= i < |acc| ==> all[i] == acc[i];
  }

  lemma {:induction false} ContinuationIsRead(
      fields: seq<Field>, lines: seq<string>, pos: nat, cont: nat, acc: seq<Entry>, next: nat)
    requires pos <= |lines| && FieldsValid(fields) && FieldsEnd(fields, lines, pos, cont) == Some(next)
    requires StopsAt(lines, next, cont)
    requires DistinctKeys(acc + EntriesOf(fields))
    ensures var r := Continuation(lines, pos, cont, acc);
            r.value == acc + EntriesOf(fields) && SameCursor(lines, r.pos, next)
    decreases fields, 1
  {
    hide EntryValue, Lead, Strip, LStrip, MatchKey, WithoutComment, DictSet, HeadOf, BelowEnd, LineEnd, FieldIsValid,
         EntryOf, DistinctKeys, HasKey, AfterColon, MappingAt, Continuation, StopsAt, SameCursor, StartsWith,
         OpensKey;
    if fields == [] {
      FieldsStop(lines, pos, cont, acc);
      assert acc + EntriesOf(fields) == acc;
    } else {
      var f, others := fields[0], fields[1..];
      FieldStarts(f, lines, pos, cont);
      var p := SkipNoise(lines, pos);
      var q := BelowEnd(f, lines, p + 1, cont).value;
      MoreFieldsStop(others, lines, q, cont, next);
      var r := EntryIsRead(f, lines, p + 1, cont, q);
      var e := EntryOf(f);
      NewField(acc, e, EntriesOf(others));
      FieldEntry(f);
      FieldStep(lines, pos, cont, acc, e, AfterColon(f), r);
      FromCursor(lines, r, q, cont, [], acc + [e]);
      assert acc + [e] + EntriesOf(others) == acc + EntriesOf(fields);
      ContinuationIsRead(others, lines, q, cont, acc + [e], next);
    }
  }

  /** Every rendering of a tree, whatever the styles and indents of its nodes, with noise between its
      lines, parses to the tree. */
  lemma RenderingReads(node: Node, lines: seq<string>, d: nat, next: nat)
    requires IsBlock(node) && IsValid(node) && BlockEnd(node, lines, 0, d) == Some(next)
    requires SkipNoise(lines, next) == |lines|
    ensures Document(lines) == ValueOf(node)
  {
    hide BlockEnd, IsValid, ValueOf, ValueAt;
    BlockIsRead(node, lines, 0, d, next);
  }
}
