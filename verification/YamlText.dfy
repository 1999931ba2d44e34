/** Document values and the line-level readings of the embedded YAML parser: quotes,
    comments, mapping keys, scalars and flow collections. */
module YamlText {
  import opened Text

  /** A parsed document. A mapping keeps the insertion order of a Python dict; a float is
      kept as the text that Python's `float` accepts. */
  datatype Value =
    | Null
    | Bool(b: bool)
    | Int(n: int)
    | Float(text: string)
    | Str(s: string)
    | Seq(items: seq<Value>)
    | Map(entries: seq<Entry>)

  datatype Entry = Entry(key: string, val: Value)

  /** `d[key] = val` on a Python dict: an old key keeps its place. */
  function DictSet(entries: seq<Entry>, key: string, val: Value): seq<Entry> {
    if entries == [] then [Entry(key, val)]
    else if entries[0].key == key then [Entry(key, val)] + entries[1..]
    else [entries[0]] + DictSet(entries[1..], key, val)
  }

  predicate HasKey(entries: seq<Entry>, key: string) {
    exists i :: 0 <= i < |entries| && entries[i].key == key
  }

  predicate DistinctKeys(entries: seq<Entry>) {
    forall i, j :: 0 <= i < j < |entries| ==> entries[i].key != entries[j].key
  }

  lemma {:induction false} DictSetNew(entries: seq<Entry>, key: string, val: Value)
    requires !HasKey(entries, key)
    ensures DictSet(entries, key, val) == entries + [Entry(key, val)]
  {
    if entries != [] {
      DictSetNew(entries[1..], key, val);
    }
  }

  // ---------------------------------------------------------------- quotes and comments

  datatype Quote = Outside | InSingle | InDouble

  function QuoteStep(q: Quote, c: char): Quote {
    if c == '\'' && q != InDouble then (if q == InSingle then Outside else InSingle)
    else if c == '"' && q != InSingle then (if q == InDouble then Outside else InDouble)
    else q
  }

  /** The quotation that position i of text stands in. */
  function QuoteAt(text: string, i: nat): Quote
    requires i <= |text|
  {
    if i == 0 then Outside else QuoteStep(QuoteAt(text, i - 1), text[i - 1])
  }

  /** A `#` outside quotes opens a comment at the start of the text or after a blank (not a tab). */
  predicate OpensComment(text: string, i: nat)
    requires i < |text|
  {
    text[i] == '#' && QuoteAt(text, i) == Outside && (i == 0 || text[i - 1] == ' ')
  }

  function CommentFrom(text: string, i: nat): (c: nat)
    requires i <= |text|
    ensures i <= c <= |text|
    decreases |text| - i
  {
    if i == |text| || OpensComment(text, i) then i else CommentFrom(text, i + 1)
  }

  function WithoutComment(text: string): string {
    Strip(text[..CommentFrom(text, 0)])
  }

  /** A `:` outside quotes, last in the text or followed by a blank. */
  predicate IsKeyColon(text: string, i: nat)
    requires i < |text|
  {
    text[i] == ':' && QuoteAt(text, i) == Outside && (i + 1 == |text| || text[i + 1] == ' ')
  }

  predicate OpensKey(stripped: string) {
    && !StartsWith(stripped, "-") && !StartsWith(stripped, "{") && !StartsWith(stripped, "[")
    && exists i :: 0 <= i < |stripped| && IsKeyColon(stripped, i)
  }

  predicate IsNoise(line: string) {
    Strip(line) == "" || StartsWith(Strip(line), "#")
  }

  // ---------------------------------------------------------------- mapping keys

  predicate IsWord(c: char) {
    IsLetter(c) || IsDigit(c) || c == '_' || c == '$' || c == '-' || c == '.' || c == '/'
  }

  function WordRun(s: string): (n: nat)
    ensures n <= |s|
  {
    if s != "" && IsWord(s[0]) then 1 + WordRun(s[1..]) else 0
  }

  /** Length of the key token at the start of s: a run of word characters or a quoted string. */
  function KeyToken(s: string): (r: Option<nat>)
    ensures r.Some? ==> 0 < r.value <= |s|
  {
    if s == "" then None
    else if IsWord(s[0]) then Some(WordRun(s))
    else if s[0] == '"' || s[0] == '\'' then
      match Find(s[1..], s[0])
      case None => None
      case Some(j) => Some(j + 2)
    else None
  }

  function DropQuotes(s: string): string {
    if s != "" && s[0] in "'\"" then DropQuotes(s[1..])
    else if s != "" && s[|s| - 1] in "'\"" then DropQuotes(s[..|s| - 1])
    else s
  }

  datatype KeyLine = KeyLine(key: string, rest: string)

  /** The regular expression for `key: rest` at the start of s. */
  function MatchKey(s: string): Option<KeyLine> {
    match KeyToken(s)
    case None => None
    case Some(n) =>
      var after := LStrip(s[n..]);
      if StartsWith(after, ":") then Some(KeyLine(DropQuotes(s[..n]), LStrip(after[1..]))) else None
  }

  // ---------------------------------------------------------------- numbers

  predicate DigitOrSeparator(s: string, i: nat)
    requires i < |s|
  {
    IsDigit(s[i]) || (s[i] == '_' && i + 1 < |s| && IsDigit(s[i + 1]))
  }

  /** Digits with single underscores between them. */
  predicate IsDigitPart(s: string) {
    s != "" && IsDigit(s[0]) && forall i :: 0 <= i < |s| ==> DigitOrSeparator(s, i)
  }

  function DecimalOf(s: string): nat {
    if s == "" then 0
    else
      var c := s[|s| - 1];
      if IsDigit(c) then 10 * DecimalOf(s[..|s| - 1]) + (c as int - '0' as int)
      else DecimalOf(s[..|s| - 1])
  }

  function DropSign(s: string): string {
    if s != "" && (s[0] == '+' || s[0] == '-') then s[1..] else s
  }

  function IntOf(s: string): Option<int> {
    if !IsDigitPart(DropSign(s)) then None
    else
      var magnitude: int := DecimalOf(DropSign(s));
      Some(if StartsWith(s, "-") then -magnitude else magnitude)
  }

  predicate IsMantissa(s: string) {
    match Find(s, '.')
    case None => IsDigitPart(s)
    case Some(i) =>
      && (i == 0 || IsDigitPart(s[..i])) && (i + 1 == |s| || IsDigitPart(s[i + 1..]))
      && |s| > 1
  }

  function ExponentAt(s: string): (n: nat)
    ensures n <= |s|
    ensures n < |s| ==> s[n] == 'e' || s[n] == 'E'
  {
    if s == "" || s[0] == 'e' || s[0] == 'E' then 0 else 1 + ExponentAt(s[1..])
  }

  predicate IsFloatText(s: string) {
    var body := DropSign(s);
    var e := ExponentAt(body);
    '.' in s && IsMantissa(body[..e]) && (e < |body| ==> IsDigitPart(DropSign(body[e + 1..])))
  }

  // ---------------------------------------------------------------- scalars and flow collections

  function NumberOrText(text: string): Value {
    if '.' in text then (if IsFloatText(text) then Float(text) else Str(text))
    else match IntOf(text)
      case None => Str(text)
      case Some(n) => Int(n)
  }

  predicate IsQuoted(text: string) {
    || (StartsWith(text, "'") && EndsWith(text, "'"))
    || (StartsWith(text, "\"") && EndsWith(text, "\""))
  }

  function Inner(text: string): string {
    if |text| < 2 then "" else text[1..|text| - 1]
  }

  function ScalarOf(raw: string): Value {
    var text := WithoutComment(raw);
    var low := Lower(text);
    if text == "" then Null
    else if IsQuoted(text) then Str(Inner(text))
    else if low == "null" || low == "~" then Null
    else if low == "true" then Bool(true)
    else if low == "false" then Bool(false)
    else NumberOrText(text)
  }

  predicate IsOpener(c: char) { c == '{' || c == '[' }

  predicate IsCloser(c: char) { c == '}' || c == ']' }

  /** The comma-separated items of text, given the bracket depth and the item begun so far. */
  function FlowSplit(text: string, depth: int, current: string): seq<string> {
    if text == "" then (if current == "" then [] else [current])
    else if IsOpener(text[0]) then FlowSplit(text[1..], depth + 1, current + [text[0]])
    else if IsCloser(text[0]) then FlowSplit(text[1..], depth - 1, current + [text[0]])
    else if text[0] == ',' && depth == 0 then [current] + FlowSplit(text[1..], depth, "")
    else FlowSplit(text[1..], depth, current + [text[0]])
  }

  function FlowItems(text: string): seq<string> {
    FlowSplit(text, 0, "")
  }

  function FlowSeqOf(raw: string): Value {
    var text := Strip(raw);
    if StartsWith(text, "[") && EndsWith(text, "]") then
      var items := FlowItems(Strip(Inner(text)));
      Seq(seq(|items|, i requires 0 <= i < |items| => ScalarOf(Strip(items[i]))))
    else Seq([ScalarOf(text)])
  }

  function FlowPairs(pairs: seq<string>, acc: seq<Entry>): seq<Entry> {
    if pairs == [] then acc
    else match Find(pairs[0], ':')
      case None => FlowPairs(pairs[1..], acc)
      case Some(i) =>
        var key := DropQuotes(Strip(pairs[0][..i]));
        FlowPairs(pairs[1..], DictSet(acc, key, ScalarOf(Strip(pairs[0][i + 1..]))))
  }

  function FlowMapOf(raw: string): Value {
    var text := Strip(raw);
    if StartsWith(text, "{") && EndsWith(text, "}") then Map(FlowPairs(FlowItems(Strip(Inner(text))), []))
    else Map([])
  }
}
