# Verification of the documentation parser, the dummy BMS and the auth callout

This project models three parts of the repository in Dafny and proves what they are for.

1. **The documentation script** `scripts/generate_asyncapi_docs.py`: the hand-written YAML parser,
   the `$ref`/`allOf` resolver, the property table, the MDX escaper and blank-line collapser, and
   the matching of slugs to operation names.
2. **The dummy BMS** `local/mqtt-client/internal/dummybms`: matching topics against address
   templates, validating messages against a spec with a compile cache, reading scenarios, rendering
   payloads and publishing them by absolute deadline.
3. **The auth callout** `auth-callout/src/internal`: building the permission tables, looking
   profiles up, dispatching a request to one authenticator, and reloading the tables while
   requests are being decided.

`dafny verify dfyconfig.toml` checks everything.

## Layout

The code that moves a cursor, fills accumulators or updates fields is written as methods and
classes with the loops of the original. Each is proved equal to a function, and the theorems are
lemmas about the functions.

| files | contents |
|---|---|
| `Text.dfy` | white space, stripping, splitting, joining, decimal numbers |
| `YamlText.dfy`, `YamlSpec.dfy`, `YamlParser.dfy` | one line; the parser as functions of lines and cursor; the parser as a class |
| `YamlPrint.dfy`, `YamlRoundTrip.dfy`, `YamlDash.dfy`, `YamlBlocks.dfy`, `YamlFold.dfy`, `YamlFlow.dfy`, `YamlFlowReads.dfy`, `YamlFlowMaps.dfy` | printing and reading back, style by style; where the parser departs from YAML, and exactly when |
| `YamlLines.dfy`, `YamlScalars.dfy`, `YamlPlain.dfy`, `YamlEdges.dfy` | keys, comments and scalars in terms of their characters; scalars over several lines; where a text is cut into lines; lines that no printer writes |
| `YamlStyles.dfy`, `YamlConfinement.dfy` | reading back any mix of styles; which lines a block may take |
| `Refs.dfy`, `Resolution.dfy`, `Schemas.dfy` | the resolver and merging; resolution of possibly cyclic specs without a bound; both in terms of keys and paths |
| `Rows.dfy`, `Tables.dfy`, `YamlDocs.dfy` | the property table; its rows, order and existence in terms of resolved schemas; resolving and listing on parsed text |
| `Mdx.dfy`, `MdxTags.dfy`, `MdxSafety.dfy`, `MdxPages.dfy` | escaping one line; what becomes of each character; what it guarantees; whole pages |
| `Slugs.dfy` | slugs and operation names |
| `TopicAddress.dfy`, `BmsSchema.dfy`, `Acceptance.dfy` | topics and message validation; the verdict in terms of the spec's and the payload's fields |
| `Render.dfy`, `Schedule.dfy`, `Scenario.dfy` | rendering, timing, reading and publishing a scenario |
| `Permissions.dfy`, `Dispatch.dfy`, `Decisions.dfy`, `Reload.dfy` | tables and lookups; one request; each method's answer in terms of the request and the entries; the interleaved protocol |

A definition that code and theorems share is also stated once in terms that do not use it: the
characters of a text, the keys of a dict, the fields of a request, and literal constants (lemmas
named after what they give the meaning of, such as `YamlScalars.ScalarMeaning`,
`Acceptance.VerdictMeaning` or `Decisions.OAuth2Answer`).

Three ideas carry the larger proofs. The parser's round trip is stated over the *significant*
lines, so that one theorem covers blank and comment lines inserted anywhere. Resolution without a
depth bound is a relation indexed by the height of the `$ref`/`allOf` tree, so that "equal to
unbounded resolution" makes sense for cyclic specs too. In the reload protocol every pointer
carries the number of the load that stored it, and the invariant says that each decided request
got the sequential decision under the tables of one load.

## Where the code departs from its documentation

The model follows the code.

- A `- key:` without a value takes the entries at dash + 2 as its value; YAML 1.2.2, section
  8.2.1, makes them its siblings. The two agree iff there are none
  (`YamlDash.EmptyFirstValueSwallows`).
- The first value on the line of a dash is never read as a flow collection, and a quoted first key
  makes the item a scalar: such an item reads back iff neither is the case
  (`YamlDash.DashItemReads`).
- A block indicator in that place (`- key: |`) is read as a string, and its block never as a text; a
  line deeper than dash + 2 ends the sequence (`YamlDash.DashBlockIsNotRead`).
- Quotes are taken off without looking between them, so that `"a'b"c"` is a string. A string comes
  back from a pair of quotes iff no comment opens inside (`YamlPrint.QuotedReads`). On a line of its
  own a quoted string with both kinds of quote may look like a key; a printed document reads back iff
  it is not such a string (`YamlRoundTrip.DocumentReads`).
- The splitter of flow collections counts brackets but ignores quotes: `['a,b']` has two items
  (`YamlFlowReads.CommaInQuotesIsCut`), and brackets inside quotes do no harm only when they match
  (`YamlFlowReads.BracketsInQuotesAreKept`). Which collections read back is stated in
  `YamlFlowReads.FlowSeqReads` and `YamlFlowMaps.FlowMapReads`.
- `|-` keeps the final newline of every block that has content, unlike YAML 1.2.2, section 8.1.1.2
  (`YamlBlocks.StripKeepsNewline`). Lines of white space only are emptied, unlike YAML 1.2.2,
  section 8.1.2; a literal block reads back iff it has none (`YamlBlocks.WhiteLinesAreEmptied`).
- An empty line in a folded block gives two line breaks instead of one, and a line that is indented
  more than the block is joined to its neighbours, unlike YAML 1.2.2, section 8.1.3. When the two
  agree is stated exactly in `YamlFold.FoldMeaning`, with failing blocks in
  `YamlFold.FoldingDeparts`.
- A sequence that stands at the indent of its key is not read as its value; YAML 1.2.2, section
  8.2.3, allows it there. A dash with text after it ends the mapping. A bare dash is skipped, and
  entries after it at the same indent are read as siblings of the key; the mapping ends there iff
  none comes next (`YamlDash.FlushSequenceIsNotRead`, `YamlDash.BareDashIsSkipped`). A sequence is
  its key's value iff it is deeper (`YamlDash.SequenceUnderKey`).
- `_escape_line` promises `&lt;word&gt;`; only the `<` is replaced. A brace that the line had
  escaped itself comes out bare, after two backslashes (`MdxSafety.EscapedBraceIsBared`), and an
  unmatched backtick switches escaping off to the end of the line. A line comes out safe iff it has
  no such brace and what follows such a backtick was safe (`MdxSafety.EscapedIsSafeMdx`).
- `resolve_schema` promises a normalized schema; beyond its depth bound, and for every cyclic schema,
  something is left to resolve (`Resolution.PlainIffFull`, `Resolution.CycleIsCut`).
- The comment on `extractIdentity` names three sources of an identity; the code has five.
- "Try each authenticator": a failed one is final (`Dispatch.FailureIsFinal`).
- Reloading is consistent per request only: a later request may see an older load than an earlier
  one, iff the pointer of its method is stored after that of the other's (`Reload.OrderOfReads`).

## Model

| member | source | states |
|---|---|---|
| YamlParser.Parser.constructor | scripts/generate_asyncapi_docs.py:50-52 | the cursor starts at the first of the text's lines |
| YamlParser.Parser.Parse | scripts/generate_asyncapi_docs.py:54-60 | returns the value of the document, null for one without significant lines |
| YamlParser.Parser.SkipBlanksAndComments | scripts/generate_asyncapi_docs.py:65-71 | moves the cursor to the next significant line and no further |
| YamlParser.Parser.PeekLine | scripts/generate_asyncapi_docs.py:73-77 | the next significant line, or none at the end |
| YamlParser.Parser.StripComment | scripts/generate_asyncapi_docs.py:79-92 | the text before the first `#` that is outside quotes and at the start or after a blank, stripped |
| YamlParser.Parser.IsMappingKey | scripts/generate_asyncapi_docs.py:94-109 | true iff the line opens with no dash or bracket and has a colon outside quotes that ends it or precedes a blank |
| YamlParser.Parser.ParseValue | scripts/generate_asyncapi_docs.py:111-127 | the value and the new cursor are those of the parser's function, whose contract bounds the cursor |
| YamlParser.Parser.ParsePlainScalar | scripts/generate_asyncapi_docs.py:129-147 | joins the continuation lines of a plain scalar and stops where the function does |
| YamlParser.Parser.ParseMapping | scripts/generate_asyncapi_docs.py:149-189 | the entries of a block mapping, a repeated key keeping its place, and the new cursor |
| YamlParser.Parser.ParseEntryValue | scripts/generate_asyncapi_docs.py:174-188 | the value after a key: block scalar, nested, flow or scalar |
| YamlParser.Parser.ParseNested | scripts/generate_asyncapi_docs.py:176-182 | a value on the next lines only if they are deeper, null otherwise |
| YamlParser.Parser.ParseSequence | scripts/generate_asyncapi_docs.py:191-225 | the items of a block sequence and the new cursor |
| YamlParser.Parser.ParseItem | scripts/generate_asyncapi_docs.py:209-224 | the value after a dash |
| YamlParser.Parser.ParseDashInlineMapping | scripts/generate_asyncapi_docs.py:227-241 | the entry on the line of the dash and those that continue it |
| YamlParser.Parser.ParseContinuation | scripts/generate_asyncapi_docs.py:243-272 | the entries at exactly the continuation indent |
| YamlParser.Parser.ParseBlockScalar | scripts/generate_asyncapi_docs.py:274-322 | the text of a literal or folded block after chomping, and the new cursor |
| YamlParser.Parser.FoldLines | scripts/generate_asyncapi_docs.py:306-320 | the paragraphs of a folded block |
| YamlParser.Parser.ParseInlineFlowSeq | scripts/generate_asyncapi_docs.py:332-340 | the scalars of a flow sequence |
| YamlParser.Parser.ParseInlineFlowMap | scripts/generate_asyncapi_docs.py:342-354 | the entries of a flow mapping, a repeated key keeping its place |
| YamlParser.Parser.SplitFlow | scripts/generate_asyncapi_docs.py:356-375 | the items between commas outside brackets |
| YamlSpec.ValueAt | scripts/generate_asyncapi_docs.py:111-127 | terminates on every list of lines; at a significant line the cursor strictly advances, and never past the end |
| YamlSpec.MappingAt | scripts/generate_asyncapi_docs.py:149-189 | terminates; advances past the line of its first key, never past the end |
| YamlSpec.SequenceAt | scripts/generate_asyncapi_docs.py:191-225 | terminates; advances past the line of its first dash, never past the end |
| YamlConfinement.ValueIsConfined | scripts/generate_asyncapi_docs.py:111-147 | every significant line a value consumes is indented at least as far as its first one |
| YamlConfinement.MappingIsConfined | scripts/generate_asyncapi_docs.py:149-189 | a mapping at indent b consumes only significant lines at b or deeper |
| YamlConfinement.SequenceIsConfined | scripts/generate_asyncapi_docs.py:191-225 | the same for a sequence |
| YamlConfinement.DashIsConfined | scripts/generate_asyncapi_docs.py:227-272 | a mapping opened on a dash consumes only significant lines at its continuation indent or deeper |
| YamlConfinement.BlockIsConfined | scripts/generate_asyncapi_docs.py:274-299 | a block scalar consumes only significant lines deeper than its key |
| YamlPrint.CommentFromMeaning | scripts/generate_asyncapi_docs.py:84-91 | the comment starts at the first position that opens one |
| YamlPrint.IntTextReads | scripts/generate_asyncapi_docs.py:393-396 | decimal notation of every integer is read back as that integer |
| YamlPrint.QuotedReads | scripts/generate_asyncapi_docs.py:377-383 | any string is read back from single or double quotes iff no comment opens between them, whatever quotes it has inside |
| YamlPrint.QuotableMeaning | scripts/generate_asyncapi_docs.py:377-383 | the strings that count as printable are all those on one line that some quotes give back |
| YamlPrint.NoHashIsKept | scripts/generate_asyncapi_docs.py:79-92 | among them is every one-line string without a `#` |
| YamlPrint.AtomReads | scripts/generate_asyncapi_docs.py:377-399 | every printable null, boolean, number and string in its printed form has no comment and is read back as itself; empty collections print as `[]` and `{}` |
| YamlPrint.SimpleStandsAlone | scripts/generate_asyncapi_docs.py:94-109 | no printed value looks like a key, strings with both kinds of quote aside |
| YamlRoundTrip.KeyReads | scripts/generate_asyncapi_docs.py:165-170 | a printed key is matched and its quotes are dropped |
| YamlRoundTrip.ValueReads | scripts/generate_asyncapi_docs.py:111-127 | a nested block printed at any indent is read back and leaves exactly the lines after it |
| YamlRoundTrip.ItemsRead | scripts/generate_asyncapi_docs.py:191-225 | the items of a printed sequence are appended in order and the cursor stops at the enclosing block |
| YamlRoundTrip.EntriesRead | scripts/generate_asyncapi_docs.py:149-189 | the entries of a printed mapping are appended in order and the cursor stops at the enclosing block |
| YamlRoundTrip.InsertNoise | scripts/generate_asyncapi_docs.py:65-71 | inserting a blank or comment line anywhere leaves the significant lines unchanged |
| YamlRoundTrip.DocumentReads | scripts/generate_asyncapi_docs.py:54-225 | any lines whose significant ones are those printed for a tree parse to that tree, iff it is no single string that looks like a key |
| YamlRoundTrip.TextReads | scripts/generate_asyncapi_docs.py:50-60 | the same for the text of these lines |
| YamlRoundTrip.PrintedTextReads | scripts/generate_asyncapi_docs.py:50-225 | parsing the printed text of a tree returns the tree, under the same exact condition |
| Text.StripMeaning | scripts/generate_asyncapi_docs.py:65-71 | stripping takes off the white space on both sides of a text and nothing else |
| Text.CharacterClasses | scripts/generate_asyncapi_docs.py:65-71 | the ASCII characters that are white space and those that are digits |
| Text.LetterMeaning | scripts/generate_asyncapi_docs.py:1062-1080 | the letters, and the upper-case ones among them, are those of the ASCII alphabet |
| Text.LowerMeaning | scripts/generate_asyncapi_docs.py:1055-1082 | lower-casing takes each upper-case letter to its own lower-case one and leaves every other character |
| YamlLines.PlainKeyMeaning | scripts/generate_asyncapi_docs.py:165-170 | a text before a colon, with or without white space between, is read as an unquoted key iff it is not empty and has only letters, digits and `_$-./` |
| YamlLines.QuotedKeyMeaning | scripts/generate_asyncapi_docs.py:165-170 | a text in quotes before a colon is read as a key iff it does not have its quote inside and no quote at either end |
| YamlLines.OpensKeyMeaning | scripts/generate_asyncapi_docs.py:94-109 | a text without quotes looks like a key iff it does not start with a dash or an opening bracket and a colon ends it or stands before a blank |
| YamlLines.KeyedStringReads | scripts/generate_asyncapi_docs.py:149-189 | a line of an unquoted key and a string in single quotes is a document of that one entry |
| YamlLines.RefLineReads | scripts/generate_asyncapi_docs.py:149-189 | the line `$ref: '..'` is read as a `$ref` with that string |
| YamlLines.HashMeaning | scripts/generate_asyncapi_docs.py:79-92 | outside quotes the first `#` opens a comment at the start of the text or after a blank, and nowhere else |
| YamlLines.HashInQuotes | scripts/generate_asyncapi_docs.py:79-92 | no `#` in a closed quotation opens a comment, and one after a blank behind it does |
| YamlLines.NoiseMeaning | scripts/generate_asyncapi_docs.py:65-71 | white space alone and lines that start with `#` after it are passed over, and no others |
| YamlScalars.IntMeaning | scripts/generate_asyncapi_docs.py:393-396 | the texts read as integers are exactly a sign or none and digits with single underscores between groups, and their value is that of the digits |
| YamlScalars.FloatMeaning | scripts/generate_asyncapi_docs.py:393-395 | the texts with a point that are read as floats are exactly a sign or none, grouped digits before or after the point, and an exponent or none |
| YamlScalars.ScalarMeaning | scripts/generate_asyncapi_docs.py:377-399 | how every text is read: nothing, `~` and null in any case; true and false in any case; floats; integers; quoted strings without their quotes; everything else as it is |
| YamlPlain.PlainScalarReads | scripts/generate_asyncapi_docs.py:129-147 | a plain scalar over any number of lines is its lines joined by blanks; it ends at the end, at noise, at a less indented line, at a key at its indent and at an item |
| YamlPlain.FlowLineReads | scripts/generate_asyncapi_docs.py:117-126 | a line that starts with an opening bracket is a flow collection |
| YamlPlain.UnclosedFlow | scripts/generate_asyncapi_docs.py:332-347 | without its closing bracket a flow sequence has one item and a flow mapping none |
| YamlPlain.ColonlessItem | scripts/generate_asyncapi_docs.py:349-353 | an item of a flow mapping without a colon is passed over |
| YamlPlain.LinesAreCut | scripts/generate_asyncapi_docs.py:50-52 | `\n`, `\r\n`, `\r` and the other ASCII line separators each end a line; text after the last one is a line too |
| YamlDash.ContinuationReads | scripts/generate_asyncapi_docs.py:243-272 | the entries printed at the continuation indent are read back, and nothing after them |
| YamlDash.DashItemReads | scripts/generate_asyncapi_docs.py:215-241 | an item that opens on the line of its dash reads back iff its first key needs no quotes and its first value is no empty collection |
| YamlDash.DashSequenceReads | scripts/generate_asyncapi_docs.py:191-272 | a sequence of such items is read back and leaves exactly the lines after it |
| YamlDash.DashDocumentReads | scripts/generate_asyncapi_docs.py:54-272 | the round trip, with noise anywhere, for a document of such items |
| YamlDash.EmptyFirstValueSwallows | scripts/generate_asyncapi_docs.py:237-241 | a key without a value on the line of the dash takes all entries at dash + 2 as its value; it reads as null with these entries as siblings iff there are none |
| YamlDash.DashBlockIsNotRead | scripts/generate_asyncapi_docs.py:227-272 | a block indicator after a key on the line of a dash is the key's value as a string, followed by the entries at dash + 2; without any, the item is never the one with the block's text, and a deeper line ends the sequence |
| YamlDash.FlushSequenceIsNotRead | scripts/generate_asyncapi_docs.py:152-182 | a sequence at the indent of its key is not the key's value (null instead); the mapping ends at its first dash iff the dash has text after it, and at what follows a bare dash iff that is no line of an entry |
| YamlDash.BareDashIsSkipped | scripts/generate_asyncapi_docs.py:161-168 | any entries printed after a bare dash at their indent are appended to the mapping as if the dash were not there |
| YamlDash.PrintedFlushSequence | scripts/generate_asyncapi_docs.py:152-182 | every printed sequence at the indent of its key ends the mapping, nested first items included |
| YamlDash.SequenceUnderKey | scripts/generate_asyncapi_docs.py:176-182 | a printed sequence below a key is its value iff it is indented deeper than the key |
| YamlEdges.DashColonMeaning | scripts/generate_asyncapi_docs.py:215-241 | text after a dash that has a colon anywhere and starts with no bracket, brace or quote opens a mapping: with a key before the colon, one whose first value is the scalar after it, without one, one of the entries below alone |
| YamlEdges.DashTextMeaning | scripts/generate_asyncapi_docs.py:219-224 | other text after a dash is a flow collection or a scalar on that line |
| YamlEdges.SequenceStep | scripts/generate_asyncapi_docs.py:193-224 | a line at the indent of a sequence is an item iff it starts with a dash, with a blank after it or not; any other line ends the sequence |
| YamlEdges.DashOpensSequence | scripts/generate_asyncapi_docs.py:118-119 | a value that starts with a dash is a sequence iff the dash is alone or before a blank |
| YamlEdges.MappingStep | scripts/generate_asyncapi_docs.py:152-168 | a line without a key at the indent of a mapping is passed over, an item or a line at another indent ends the mapping |
| YamlEdges.ContinuationStep | scripts/generate_asyncapi_docs.py:245-258 | among the entries that continue an item such a line ends the item |
| YamlEdges.RepeatedKey | scripts/generate_asyncapi_docs.py:170-188 | a repeated key keeps its place and takes the later value |
| YamlStyles.RenderingReads | scripts/generate_asyncapi_docs.py:54-322 | any mix of styles at the nodes of a tree (scalars and flow collections on the line, literal blocks, items below their dash, on it, or mappings opening on it), with any indents and with blank and comment lines between, parses to the tree |
| YamlStyles.BlockIsRead | scripts/generate_asyncapi_docs.py:111-189 | the same for a block anywhere in a document; the cursor ends at the first significant line after it |
| YamlBlocks.LiteralReads | scripts/generate_asyncapi_docs.py:274-322 | a literal block comes back exactly, `#` lines included, with one final newline (and, under the keep indicator, the blank lines that follow); the cursor stops at the next non-blank line |
| YamlBlocks.IndicatorMeaning | scripts/generate_asyncapi_docs.py:173 | a block scalar is opened by `|` or `>` with `+`, `-` or nothing after it, and by nothing else |
| YamlBlocks.BlockMeaning | scripts/generate_asyncapi_docs.py:274-322 | every block scalar: its lines, with `+` also the blank lines after it, folded under `>`, and a line break at the end; it ends where a line is indented less than its first one |
| YamlBlocks.StripKeepsNewline | scripts/generate_asyncapi_docs.py:301-322 | the strip indicator leaves out the final newline iff the block has no content |
| YamlBlocks.WhiteLinesAreEmptied | scripts/generate_asyncapi_docs.py:283-299 | a literal block reads back iff it has no line of white space only |
| YamlBlocks.FoldAtEmpty | scripts/generate_asyncapi_docs.py:306-319 | folding commutes with a split at an empty line, and every empty line is kept |
| YamlBlocks.FoldRun | scripts/generate_asyncapi_docs.py:306-319 | a run of non-empty lines becomes one paragraph joined by blanks |
| YamlBlocks.FoldIsIdempotent | scripts/generate_asyncapi_docs.py:306-320 | folding twice is folding once, and no two adjacent paragraphs are non-empty |
| YamlFold.FoldMeaning | scripts/generate_asyncapi_docs.py:306-320 | folding gives the text of YAML 1.2.2, section 8.1.3, iff no line that starts with white space stands directly next to another line and no empty line stands between two lines that do not |
| YamlFold.FoldedReads | scripts/generate_asyncapi_docs.py:274-322 | the same for the value of a key with a folded block below it |
| YamlFold.FoldingDeparts | scripts/generate_asyncapi_docs.py:306-320 | one block for each cause on which the parser and YAML differ |
| YamlFlow.FlowItemsMeaning | scripts/generate_asyncapi_docs.py:356-375 | no item has a comma outside brackets, all but the last close the brackets they open, and the items joined by commas are the text up to one final comma |
| YamlFlow.SplitIsExact | scripts/generate_asyncapi_docs.py:356-375 | joined items are split into themselves iff no item has a comma outside brackets and all but the last close the brackets they open |
| YamlFlow.DepthMeaning | scripts/generate_asyncapi_docs.py:361-371 | the depth at which commas are cut counts braces and brackets alike: opening ones less closing ones |
| YamlFlowReads.FlowSeqReads | scripts/generate_asyncapi_docs.py:332-375 | a printed flow sequence of scalars reads back iff no text has a comma outside brackets, quotes or not, and all but the last close the brackets they open |
| YamlFlowReads.CommaInQuotesIsCut | scripts/generate_asyncapi_docs.py:361-375 | a quoted string with a comma is cut in two |
| YamlFlowReads.BracketsInQuotesAreKept | scripts/generate_asyncapi_docs.py:361-375 | a quoted string with matched brackets is read back from a flow sequence |
| YamlFlowMaps.FlowMapReads | scripts/generate_asyncapi_docs.py:342-375 | a printed flow mapping of scalars, quoted keys included, is read back from no more items than it has entries iff no key has a colon, no pair a comma outside brackets, and all but the last close the brackets they open |
| YamlFlowMaps.FlowMapReadsOnlyIf | scripts/generate_asyncapi_docs.py:342-375 | however many items there are, a mapping that is read back has no colon in a key and no comma outside brackets in a pair |
| YamlFlowMaps.CommaFreeFlowMapReads | scripts/generate_asyncapi_docs.py:342-375 | when no key and no string has a comma, a printed flow mapping reads back iff no key has a colon and all pairs but the last close the brackets they open |
| YamlFlowMaps.BalancedFlowMapReads | scripts/generate_asyncapi_docs.py:342-375 | when keys and values close the brackets they open, a printed flow mapping reads back iff no key has a colon and no key and no value a comma outside brackets |
| YamlFlowMaps.PairsAreReadable | scripts/generate_asyncapi_docs.py:349-353 | no key that is read from a flow mapping has a colon, and no key followed by its string a comma outside brackets |
| Refs.ResolveRefLoop | scripts/generate_asyncapi_docs.py:411-422 | walks the parts of a reference; an empty mapping for anything that is not one |
| Refs.ReferenceMeaning | scripts/generate_asyncapi_docs.py:411-422 | a reference made of keys gives the mapping at that path, and an empty one when there is none |
| Resolution.ResolutionIsUnique | scripts/generate_asyncapi_docs.py:425-452 | resolution without a depth bound has at most one result |
| Resolution.BoundedIsFull | scripts/generate_asyncapi_docs.py:425-452 | when `$ref`/`allOf` height plus starting depth is at most 11, or at most 10 where Python raises, `resolve_schema` gives the unbounded resolution |
| Resolution.ResolveSchemaMeaning | scripts/generate_asyncapi_docs.py:425-452 | the result has neither `$ref` nor `allOf` at the top iff it is the unbounded resolution and reached within the bound |
| Resolution.PlainIffFull | scripts/generate_asyncapi_docs.py:425-452 | nothing is left to resolve at the top iff height plus starting depth is at most 11, and then the result is the unbounded one |
| Resolution.ResolvedIsPlain | scripts/generate_asyncapi_docs.py:425-452 | unbounded resolution of a dict leaves no `$ref` or `allOf` at the top |
| Resolution.CycleIsCut | scripts/generate_asyncapi_docs.py:429-451 | a schema on any cycle of references and `allOf` items always comes back with a `$ref` or an `allOf` left |
| Resolution.SelfReferenceIsKept | scripts/generate_asyncapi_docs.py:429-433 | a schema that refers directly to itself comes back as it is, from every depth |
| Schemas.ReferenceResolves | scripts/generate_asyncapi_docs.py:429-433 | up to depth 10 a dict with `$ref`, whatever else it has, resolves to what the path leads to, one level deeper; to the target itself when that is plain; to an empty dict when the path leads nowhere |
| Schemas.AllOfResolves | scripts/generate_asyncapi_docs.py:434-451 | up to depth 10 a dict without `$ref` resolves to the merge of the resolutions of exactly the items of its `allOf`, in order, one level deeper, and raises iff one of them or merging does |
| Schemas.SimpleResolves | scripts/generate_asyncapi_docs.py:427-452 | a dict without both comes back as it is, and null as an empty dict |
| Schemas.DeepSchemas | scripts/generate_asyncapi_docs.py:429-430 | beyond depth 10 everything comes back as it is |
| Schemas.OtherReferences | scripts/generate_asyncapi_docs.py:413-414 | a reference that does not start with `#/` resolves to an empty dict, one that is no string raises |
| Schemas.NoDicts | scripts/generate_asyncapi_docs.py:431-452 | numbers and booleans raise, and so do lists and strings that have `$ref` or `allOf` in them; others come back |
| Schemas.ReferenceResolvesTo | scripts/generate_asyncapi_docs.py:431-433 | without a bound a reference resolves to exactly what the target of its path does, and a plain dict to itself |
| Schemas.AllOfResolvesTo | scripts/generate_asyncapi_docs.py:434-451 | without a bound an `allOf` resolves to the merge of what its items resolve to |
| Schemas.LeadsToMeaning | scripts/generate_asyncapi_docs.py:431-439 | the edges of a cycle: from a reference to what its path leads to, and from an `allOf` to each of its items |
| Schemas.MergeSucceeds | scripts/generate_asyncapi_docs.py:434-451 | merging raises iff some item is no dict, has `properties` that are no dict, or a `required` that is no list of strings |
| Schemas.MergedOrder | scripts/generate_asyncapi_docs.py:442-448 | merged properties stand in the order in which their names first occur |
| Schemas.MergedKeys | scripts/generate_asyncapi_docs.py:446-450 | the merge has `properties` iff some property is merged, and as `required` the merged names without repetitions, iff there are any |
| Refs.MergeMeaning | scripts/generate_asyncapi_docs.py:434-451 | merged keys come from the last item that has them, `properties` is the last-wins union, `required` the concatenation without repetitions |
| Refs.DedupMeaning | scripts/generate_asyncapi_docs.py:449-450 | `list(dict.fromkeys(..))` has the same elements once each, in the order of their first occurrences |
| Refs.MergeKeeps | scripts/generate_asyncapi_docs.py:434-451 | merging dicts none of which has a key gives a dict without it |
| Rows.RowTable.Collect | scripts/generate_asyncapi_docs.py:556-593 | appends the rows of the properties to the shared list, in order, after what was there |
| Rows.RowTable.CollectBelow | scripts/generate_asyncapi_docs.py:587-593 | appends the rows of the nested properties, if they are to be expanded |
| Rows.RowNames | scripts/generate_asyncapi_docs.py:566-585 | every row is named by the prefix and the dotted path of its property |
| Rows.RowFlags | scripts/generate_asyncapi_docs.py:570-591 | every row's flag is what the declaring object requires |
| Rows.PathsAreDistinct | scripts/generate_asyncapi_docs.py:566-593 | no path is listed twice, and every path comes after its parent's |
| Rows.EveryPathIsListed | scripts/generate_asyncapi_docs.py:588-593 | no property within the depth bound is left out |
| Tables.NestedMeaning | scripts/generate_asyncapi_docs.py:587-593 | a property is expanded with exactly these properties and required names: its schema resolves to type `object` with these properties, not none, and these strings as `required`, none if that is absent |
| Tables.FalsyMeaning | scripts/generate_asyncapi_docs.py:588 | the values for which nothing is expanded: null, false, zero, and empty texts, lists and dicts |
| Tables.ZeroMeaning | scripts/generate_asyncapi_docs.py:588 | a float counts as zero iff its digits before the exponent are zero |
| Tables.PathsInOrder | scripts/generate_asyncapi_docs.py:566-593 | the rows come in pre-order, and among siblings in the order in which the properties are declared |
| Tables.TableExists | scripts/generate_asyncapi_docs.py:566-593 | there is a table, and no exception, iff every property within the depth bound can be asked for `$ref`, resolves to a dict and, where it is expanded, has a dict as `properties` unless false and a list of strings as `required` |
| Tables.TableMeaning | scripts/generate_asyncapi_docs.py:556-593 | one row for each path that walks through such objects within the depth bound and for no other, in that order, with its dotted name and the flag that its declaring object gives it; distinct names when property names are dot-free |
| YamlDocs.DocumentIsDoc | scripts/generate_asyncapi_docs.py:54-422 | whatever the lines are, the parser returns a value in which every mapping has distinct keys, and so is what any reference leads to: the assumption of the theorems on resolving and listing |
| YamlDocs.ReferencedSchema | scripts/generate_asyncapi_docs.py:404-452 | for every parsed spec and every reference, the resolved schema has neither `$ref` nor `allOf` at the top iff it is the unbounded resolution within the bound |
| YamlDocs.ReferencedTable | scripts/generate_asyncapi_docs.py:404-593 | for every parsed spec and every reference, the resolved schema has a table iff its properties can be listed, and then one row for each path within the depth bound and no other, in order, named and flagged by it |
| Mdx.EscapeLine | scripts/generate_asyncapi_docs.py:778-812 | the index loop computes the escape of the line |
| Mdx.SpanIsLocal | scripts/generate_asyncapi_docs.py:783-790 | a closed span is the same span whatever follows it |
| Mdx.DecodeRecovers | scripts/generate_asyncapi_docs.py:778-812 | a decoder recovers a line iff it has no literal `&lt;` outside spans |
| MdxTags.TagMeaning | scripts/generate_asyncapi_docs.py:800 | the tags left alone are exactly those the expression matches, line breaks with white space and a slash included |
| MdxTags.AngleMeaning | scripts/generate_asyncapi_docs.py:797-808 | a `<` becomes an entity iff a letter follows, a `>` comes later and it opens no such tag |
| MdxTags.CharacterMeaning | scripts/generate_asyncapi_docs.py:791-811 | every brace gets a backslash, and every other character stays |
| MdxTags.SpanMeaning | scripts/generate_asyncapi_docs.py:783-790 | a span stays, and so does everything after a backtick without a partner |
| MdxSafety.EscapeIsSafe | scripts/generate_asyncapi_docs.py:778-812 | outside spans every brace directly follows a backslash, whatever stands before that, and no `<letter` with a later `>` is left unless it opens an allow-listed tag, up to an unmatched backtick |
| MdxSafety.EscapeIsSafeClosed | scripts/generate_asyncapi_docs.py:783-790 | outside closed spans the whole escaped line has this property iff the text from an unmatched backtick on has it |
| MdxSafety.BracesAreEscaped | scripts/generate_asyncapi_docs.py:791-796 | outside spans every brace of the output has an odd number of backslashes directly before it iff no brace of the input had |
| MdxSafety.EscapedIsSafeMdx | scripts/generate_asyncapi_docs.py:778-812 | closed spans aside, every brace is escaped and every tag-like `<` allow-listed iff the line had escaped no brace itself and the text from an unmatched backtick on was safe already |
| MdxSafety.EscapedBraceIsBared | scripts/generate_asyncapi_docs.py:791-796 | a brace that was escaped already is left bare after two backslashes |
| MdxSafety.UnmatchedBacktickIsUnsafe | scripts/generate_asyncapi_docs.py:785-788 | a brace after an unmatched backtick is left bare |
| MdxSafety.TagSurvives | scripts/generate_asyncapi_docs.py:797-802 | an allow-listed tag is still one after escaping |
| MdxSafety.SpansAreKept | scripts/generate_asyncapi_docs.py:783-790 | the backtick spans of the output are those of the input |
| MdxSafety.EscapeFixes | scripts/generate_asyncapi_docs.py:778-812 | escaping changes exactly the lines that have an offending brace or `<` outside spans |
| MdxPages.EscapeMdxLoop | scripts/generate_asyncapi_docs.py:740-754 | the fence loop computes the escape of the page |
| MdxPages.EscapedPage | scripts/generate_asyncapi_docs.py:740-812 | as many lines; fences and fenced lines identical and in the same places; every other line with its spans; up to an unmatched backtick its braces follow backslashes, and they are escaped iff the line had escaped none itself; it is safe as a whole iff also what follows such a backtick was |
| MdxPages.DecodeMdxRecovers | scripts/generate_asyncapi_docs.py:740-812 | a page is recovered iff no line outside fences has a literal `&lt;` outside its spans |
| MdxPages.FenceMeaning | scripts/generate_asyncapi_docs.py:744-747 | a fence is a line with three backticks after white space, if any |
| MdxPages.ProtectedMeaning | scripts/generate_asyncapi_docs.py:742-753 | a line is copied iff it is a fence or the number of fences before it is odd |
| MdxPages.CollapseBlankLinesLoop | scripts/generate_asyncapi_docs.py:757-775 | the loop computes the collapse of the page |
| MdxPages.CollapseMeaning | scripts/generate_asyncapi_docs.py:757-775 | all non-blank lines are kept in order, and no two blank lines are adjacent |
| MdxPages.CollapseAround | scripts/generate_asyncapi_docs.py:757-775 | every non-blank line stays, and the lines before and after it are collapsed apart |
| MdxPages.CollapseBlanks | scripts/generate_asyncapi_docs.py:757-775 | any number of blank lines becomes one empty line |
| MdxPages.CollapseFixes | scripts/generate_asyncapi_docs.py:757-775 | a collapsed page is left as it is |
| MdxPages.EscapeAndCollapseCommute | scripts/generate_asyncapi_docs.py:740-775 | escaping and collapsing commute on every text |
| MdxPages.NormalizeIsIdempotent | scripts/generate_asyncapi_docs.py:1108-1113 | a written page ends in exactly one newline, and collapsing and ending it again changes nothing |
| MdxPages.NormalizeMeaning | scripts/generate_asyncapi_docs.py:1108-1113 | a written page is the collapsed text up to the newlines at its end |
| Slugs.SlugLoop | scripts/generate_asyncapi_docs.py:1062-1080 | the nested run loops compute the slug |
| Slugs.BuildBmsOpMap | scripts/generate_asyncapi_docs.py:1051-1083 | the map from slugs to names, a repeated slug keeping its place and taking the later name |
| Slugs.MatchBmsOperation | scripts/generate_asyncapi_docs.py:1086-1095 | exact slug first, then the first one equal up to hyphens |
| Slugs.SlugIsWords | scripts/generate_asyncapi_docs.py:1062-1080 | a hyphen stands exactly before each upper-case letter inside the name that follows another character than one or is followed by another character than one |
| Slugs.SlugMeaning | scripts/generate_asyncapi_docs.py:1055-1082 | for a hyphen-free name the slug has no leading, trailing or doubled hyphen, and without hyphens it is the lower-cased name without its prefix |
| Slugs.MatchMeaning | scripts/generate_asyncapi_docs.py:1086-1095 | an operation is found iff one has that name up to hyphens, and then one that has |
| Slugs.ExactSlugWins | scripts/generate_asyncapi_docs.py:1082-1089 | an operation with exactly the slug asked for is preferred, the last one when several share it |
| Slugs.PrefixMeaning | scripts/generate_asyncapi_docs.py:1058-1080 | one prefix, `receive` or `publish`, is dropped before the words are cut |
| Slugs.FirstMatchWins | scripts/generate_asyncapi_docs.py:1090-1094 | without an exact slug the first operation that agrees up to hyphens is returned |
| TopicAddress.MatchTopicAddress | local/mqtt-client/internal/dummybms/schema.go:180-213 | the loops compute the match of a topic against an address |
| TopicAddress.MatchIsInverse | local/mqtt-client/internal/dummybms/schema.go:180-213 | for every address a topic matches with bindings iff some values fit the address, instantiate it to the topic and give these bindings |
| TopicAddress.MatchIsInverseOfFilling | local/mqtt-client/internal/dummybms/schema.go:180-213 | with distinct parameter names: iff the bindings assign exactly the parameters, with fitting values, and the filled-in address is the topic |
| TopicAddress.FittingReads | local/mqtt-client/internal/dummybms/schema.go:194-212 | every instance of an address matches back to its own bindings |
| TopicAddress.MatchFits | local/mqtt-client/internal/dummybms/schema.go:185-212 | a match takes one segment per parameter, one or more for a last parameter, and literals for themselves |
| TopicAddress.ParamMeaning | local/mqtt-client/internal/dummybms/schema.go:246-248 | a part of an address is a parameter iff it is a name in braces |
| TopicAddress.FitsMeaning | local/mqtt-client/internal/dummybms/schema.go:180-213 | a literal takes itself, a parameter one segment without wildcards, a last parameter one or more, none of them empty |
| TopicAddress.BindingsMeaning | local/mqtt-client/internal/dummybms/schema.go:199-206 | exactly the parameters are bound, each to the value of its last occurrence |
| BmsSchema.Validator.Compile | local/mqtt-client/internal/dummybms/schema.go:151-163 | returns what compiling afresh would, and caches only successes |
| BmsSchema.Validator.ValidateMessage | local/mqtt-client/internal/dummybms/schema.go:51-95 | for every order in which the channels are visited and every state of the cache, the verdict is that of a set-based specification |
| BmsSchema.Validator.ValidateChannelMessages | local/mqtt-client/internal/dummybms/schema.go:97-127 | accepts iff some message compiles, validates and agrees with the topic |
| BmsSchema.AcceptedMeaning | local/mqtt-client/internal/dummybms/schema.go:64-94 | an accepted topic is a filled-in address whose bindings respect the enums and agree with the payload |
| BmsSchema.BadTopicIsRejected | local/mqtt-client/internal/dummybms/schema.go:185-192 | a topic with an empty segment or a wildcard matches no channel |
| BmsSchema.AcceptanceIsMonotone | local/mqtt-client/internal/dummybms/schema.go:64-89 | more channels never turn an acceptance into a rejection |
| Acceptance.VerdictMeaning | local/mqtt-client/internal/dummybms/schema.go:51-244 | every verdict in the fields of the spec and of the payload: accepted iff a channel's address, filled with values its enums list, is the topic, the payload schema of one of its messages compiles and takes the payload, and every payload field named like a parameter is the string filled in for it |
| Acceptance.DifferingFieldIsRejected | local/mqtt-client/internal/dummybms/schema.go:129-149 | a payload with a field that differs from the topic's parameter of that name is never accepted |
| Scenario.ParseTopicType | local/mqtt-client/internal/dummybms/scenario.go:217-246 | returns the type of a well-formed topic, and none iff there is none |
| Scenario.EntryFromRecord | local/mqtt-client/internal/dummybms/scenario.go:177-200 | returns the entry of a valid record, and none iff there is none |
| Scenario.RenderPayload | local/mqtt-client/internal/dummybms/scenario.go:112-119 | returns the rendered payload iff it is valid for the topic |
| Scenario.ReadScenario | local/mqtt-client/internal/dummybms/scenario.go:56-110 | succeeds iff there is a row and all rows read as entries with non-decreasing offsets and payloads valid at time 0; otherwise names the first row that does not |
| Scenario.ReadingIsUnique | local/mqtt-client/internal/dummybms/scenario.go:77-103 | the rows determine the entries |
| Scenario.BadRowEndsReading | local/mqtt-client/internal/dummybms/scenario.go:80-99 | after a bad row no reading of all rows exists |
| Scenario.ScenarioMeaning | local/mqtt-client/internal/dummybms/scenario.go:90-102 | offsets are non-negative and non-decreasing, and an entry is retained iff its topic is Metadata by PUB |
| Scenario.RecordMeaning | local/mqtt-client/internal/dummybms/scenario.go:177-246 | exactly which records are which entries |
| Scenario.RowMeaning | local/mqtt-client/internal/dummybms/scenario.go:84-99 | a row is taken iff it is an entry whose payload, with 0 for every timestamp, is accepted |
| Scenario.World.WaitUntil | local/mqtt-client/internal/dummybms/scenario.go:248-268 | waiting succeeds only if the context is cancelled neither when it begins nor before the deadline, and ends at the deadline or now, whichever is later; it fails only once the context is cancelled |
| Scenario.PublishOnce | local/mqtt-client/internal/dummybms/scenario.go:121-155 | publishes exactly a prefix of the entries in order, all of them on success, each rendered at its time, valid for its topic, and waited for before any cancellation; says where and why it stopped |
| Scenario.RunTimes | local/mqtt-client/internal/dummybms/scenario.go:138-152 | no entry is rendered before its deadline, and the finish time of n entries is the maximum over j of deadline j plus the costs from j on |
| Scenario.MessageMeaning | local/mqtt-client/internal/dummybms/scenario.go:112-152 | the message of an entry has its topic and flag and its template with the time of rendering in whole milliseconds |
| Scenario.WaitMeaning | local/mqtt-client/internal/dummybms/scenario.go:248-268 | waiting may succeed iff the context is cancelled neither by now nor before the deadline |
| Schedule.FinishIsMaximum | local/mqtt-client/internal/dummybms/scenario.go:138-152 | waiting for absolute deadlines finishes at the maximum of running back to back from each deadline |
| Schedule.LatenessDisappears | local/mqtt-client/internal/dummybms/scenario.go:140-143 | while the gaps cover the costs, lateness shrinks by the whole slack, down to nothing, and is never negative |
| Render.RenderMeaning | local/mqtt-client/internal/dummybms/scenario.go:112-114 | no placeholder is left, the text between the placeholders is unchanged, and templates without one are returned as they are |
| Render.GapsAreKept | local/mqtt-client/internal/dummybms/scenario.go:113 | template and output are the same gaps, joined by the placeholder and by the replacement |
| Render.TimestampMeaning | local/mqtt-client/internal/dummybms/scenario.go:112-114 | `{{timestamp_ms}}` is replaced by the time in decimal digits |
| Permissions.PermissionsManager.constructor | auth-callout/src/internal/config/permissions.go:89-92 | all four pointers are nil before the initial load |
| Permissions.PermissionsManager.Load | auth-callout/src/internal/config/permissions.go:122-217 | succeeds iff the file parses and every OAuth2 entry has an expanded subject or azp; then the four tables are those of the file, and on failure nothing changes |
| Permissions.PermissionsManager.BuildOAuth2Index | auth-callout/src/internal/config/permissions.go:135-161 | for every iteration order, a table with the keys of the entries, each with the profile of an entry that has the key |
| Permissions.PermissionsManager.BuildIndex | auth-callout/src/internal/config/permissions.go:163-183 | the same for identities and public keys |
| Permissions.PermissionsManager.GetOAuth2Profile | auth-callout/src/internal/config/permissions.go:220-240 | exact key, then subject only, then azp only |
| Permissions.PermissionsManager.GetMTLSProfile | auth-callout/src/internal/config/permissions.go:243-247 | the profile of the identity in the current table |
| Permissions.PermissionsManager.GetNKeyProfile | auth-callout/src/internal/config/permissions.go:250-254 | the profile of the key in the current table |
| Permissions.PermissionsManager.GetNoAuthProfile | auth-callout/src/internal/config/permissions.go:257-263 | the anonymous profile, if one is configured |
| Permissions.OAuth2Agrees | auth-callout/src/internal/config/permissions.go:135-240 | with distinct expanded keys the lookup is a search through the entries by priority: it fails iff no entry qualifies and returns every qualifying one |
| Permissions.OAuth2Matches | auth-callout/src/internal/config/permissions.go:142-238 | a returned entry's non-empty identifiers are the token's, and an empty subject and azp match nothing |
| Decisions.AcceptableMeaning | auth-callout/src/internal/config/permissions.go:135-144 | a configuration is accepted iff every OAuth2 entry has a subject or an azp once the environment is expanded |
| Dispatch.NewAuthenticators | auth-callout/src/internal/service/service.go:137-170 | OAuth2 and mTLS if configured, then NKey, then no authentication |
| Dispatch.HandleAuthRequest | auth-callout/src/internal/service/service.go:400-427 | the loop decides as the first authenticator that can handle the request |
| Dispatch.RunAuthenticator | auth-callout/src/internal/auth/oauth2.go:209-232 | each authenticator answers from one lookup |
| Dispatch.FieldsRead | auth-callout/src/internal/auth/oauth2.go:199-203 | a scope string of words is read as these words |
| Dispatch.UnmatchedMeaning | auth-callout/src/internal/service/service.go:421-427 | exactly which requests no authenticator can handle |
| Dispatch.DispatchMeaning | auth-callout/src/internal/service/service.go:404-427 | with all methods enabled some authenticator matches; the anonymous profile is issued iff there is one and the request has no token, chain or NKey (nor, with OAuth2, an `oauthtoken` password) |
| Dispatch.FailureIsFinal | auth-callout/src/internal/service/service.go:404-419 | the first authenticator that can handle a request decides it, whatever the later ones would say |
| Dispatch.OAuth2IssueMeaning | auth-callout/src/internal/auth/oauth2.go:113-196 | an issued OAuth2 profile is that of an entry the token's identifiers match, and the token has its scope |
| Dispatch.KeyedIssueMeaning | auth-callout/src/internal/auth/nkey.go:113-194 | an issued NKey profile belongs to the presented key, whose signature of the nonce verified; an issued mTLS profile to the identity of a verified certificate |
| Decisions.MethodMeaning | auth-callout/src/internal/service/service.go:137-170 | which method decides, in the fields of the request |
| Decisions.FieldsMeaning | auth-callout/src/internal/auth/oauth2.go:199-203 | a scope is in a scope string iff it stands there between white space or the ends |
| Decisions.OAuth2Answer | auth-callout/src/internal/auth/oauth2.go:113-232 | OAuth2 issues the profile of an entry for the token's subject and azp only if the token has three parts and is valid and that entry's scope, `mqtt` by default, is in the scope string or, without one, in the list; and does so if all entries for the token meet this |
| Decisions.OAuth2Decision | auth-callout/src/internal/auth/oauth2.go:113-232 | with distinct keys: the profile of an entry is issued iff all of this holds for it |
| Decisions.IdentityMeaning | auth-callout/src/internal/auth/mtls.go:145-172 | the identity is the first of common name, e-mail addresses, DNS names, organizations and units |
| Decisions.MTLSAnswer | auth-callout/src/internal/auth/mtls.go:56-200 | mTLS issues a profile iff the first certificate of the first chain is valid, has an identity and an entry has it, and then that entry's |
| Decisions.NKeyAnswer | auth-callout/src/internal/auth/nkey.go:113-194 | NKey issues a profile iff an entry has the key and the nonce is signed with it, and then that entry's |
| Decisions.NoAuthAnswer | auth-callout/src/internal/auth/noauth.go:33-90 | the anonymous profile is issued iff one is configured and the request has no token, chain or key |
| Reload.ApplyKeeps | auth-callout/src/internal/config/permissions.go:185-200 | every step of the loader or of a request keeps the invariant, and pointers only move forward |
| Reload.RunKeeps | auth-callout/src/internal/config/permissions.go:185-200 | the same for every interleaved run |
| Reload.ReachablePointers | auth-callout/src/internal/config/permissions.go:192-200 | in every reachable state the generations satisfy noauth >= oauth2 >= mtls >= nkey >= noauth - 1, each pointer holds its part of an accepted load, and between loads all are of the latest |
| Reload.LoaderMeaning | auth-callout/src/internal/config/permissions.go:122-217 | between loads a load of an acceptable configuration, and of no other, stores its four tables and changes nothing else; a load that fails changes nothing |
| Reload.RequestMeaning | auth-callout/src/internal/service/service.go:400-427 | a request arrives once, noting the last complete load; only an undecided one takes a step, which changes nothing else, and when decided it notes the last load that had begun to store |
| Reload.OutcomesAreSequential | auth-callout/src/internal/service/service.go:400-427 | in every interleaving each decided request got the sequential decision under one accepted load, current at some moment between its arrival and its decision |
| Reload.EmptyIdentifiersNeverMatch | auth-callout/src/internal/config/permissions.go:142-144 | in no reachable state does a token without subject and azp find a profile |
| Reload.UndisturbedVisit | auth-callout/src/internal/service/service.go:400-427 | a request that nothing interleaves with is decided under the pointers it meets |
| Reload.ReadsMoveForward | auth-callout/src/internal/config/permissions.go:192-200 | after a read by one method, no read by a method whose pointer is stored no later is from an older load, in any run |
| Reload.CrossMethodGoesBack | auth-callout/src/internal/config/permissions.go:192-200 | in every reload from every reachable idle state, for every pair of methods whose pointers are stored in this order, a request by the first can see the new load and a later one by the second the load before |
| Reload.OrderOfReads | auth-callout/src/internal/config/permissions.go:192-200 | of two methods that reach their tables, a read by the second after one by the first is from an older load in some run iff its pointer is stored later |

## Left out

- YamlRoundTrip.DocumentReads: leaves out strings that neither pair of quotes gives back, because both open a comment, and strings with line breaks (`YamlStyles` has literal blocks for these); keys are words or strings without one of the two quotes and without a quote at either end, because the expression for quoted keys ends at the next quote and the parser strips all quotes from both ends.
- YamlPrint.AtomReads: keeps a float as the text Python's `float` accepts, because rounding is not the point; Python's limit on the digits of an `int` is not modelled.
- YamlSpec.ValueAt: restricts white space, line boundaries, letters and digits to ASCII, where Python also has the Unicode classes; recursion depth is unbounded.
- Slugs.SlugMeaning: restricts letter case to ASCII.
- Resolution.BoundedIsFull: when resolution raises only at depth 11, the bounded resolver returns the schema instead. It reports an exception for `required` lists with other items than strings, and for `properties`, `required` or `allOf` values of other types than Python's dict and list, some of which Python would take.
- Rows.IsFalsy: takes a float for zero by its digits, so that one that underflows to zero is not.
- Rows.RowTable.Collect: leaves out the type and description columns, which are formatting, with the exceptions that formatting them raises, and the rows already appended when an exception is raised.
- BmsSchema.Validator.ValidateMessage: returns the kind of verdict without the error texts; decoding JSON and compiling JSON schemas are fixed functions.
- Scenario.ReadScenario: starts from decoded CSV records, and treats Go's duration syntax as a fixed function; an empty file and an unreadable header are one result.
- Scenario.PublishOnce: leaves out the checks for a missing scenario or publisher; times are unbounded integers in nanoseconds.
- Scenario.World.WaitUntil: models the timer and the context by a clock, an instant of cancellation and an arbitrary delay, counted as cost of the entry; the clock does not go back.
- YamlFlowMaps.FlowMapReads: where the splitter finds more items than entries (which, in a mapping that reads back, needs an open bracket before a comma inside quotes), only the conditions of `YamlFlowMaps.FlowMapReadsOnlyIf` are proved to be necessary; with matched brackets or without commas the condition is exact.
- YamlStyles.RenderingReads: leaves out plain scalars over several lines and folded blocks as nodes of the tree.
- Scenario.World.Publish: counts a message whose publication fails as not delivered.
- Permissions.PermissionsManager.Load: performs the four stores as one call; their interleaving with requests is modelled in `Reload`. `os.ExpandEnv` is a fixed function, and null entries of the JSON file, which make the loader panic, are not modelled.
- Dispatch.HandleAuthRequest: stops at the profile; building, validating and signing the user claims is not modelled.
- Dispatch.RunAuthenticator: takes the validity of a token, of a certificate and of a signature from fixed functions instead of modelling the cryptography.
- Reload.OutcomesAreSequential: is about one request at a time, because the code gives no more (see `Reload.CrossMethodGoesBack`); loads do not overlap, as the file watcher calls back one at a time.
- `PublishLoop`, which repeats `PublishOnce` until it fails or is cancelled.
- `generate_example`, the `oneOf` rendering, the page generators, Markdown tables and headings, the command line and file writing of the documentation script: formatting and input/output.
- Reading files, decoding JSON, CSV and YAML in the Go services, the file watcher, the NATS connection, metrics, logging and health routes.
- `local/mqttbs`, `local/mqtt-client/pkg`, `appconfig` and the schema viewers: thin wrappers and generated data.
