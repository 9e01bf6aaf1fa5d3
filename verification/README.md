# Verified models of the lakehouse engine

This project models the hard parts of an engine that lets Exasol query lakehouse tables through
virtual schemas, and proves properties of the models with Dafny. `dafny verify dfyconfig.toml`
checks all of it. Every main result is stated for all inputs, all rows or all runs.

## What is modelled

**The SQL translator.** Exasol pushes an expression down as a typed JSON tree. The translator
writes it out as SQL text, once for DataFusion and once for Exasol itself. `Wire` holds the tree,
`Renderer` the translation arm by arm, `RenderLoops` the arms the code runs as loops. The text is
studied on three levels: characters and tokens (`SqlText`), a concrete syntax tree with an
independent reference parser (`SqlTree`), and values.

- `SqlRead`, `SqlSpacing` and `SqlRange` prove that the text of a tree reads back as the tree
  exactly if the tree is readable, for all trees. `SqlUnique` proves that a text reads as a tree only
  if its tokens are the tree's, so the parser invents nothing. `Names` and `RenderReads` prove that the text of
  a rendering reads back as the tree that was written, in both dialects, exactly if the node is
  *clean*, which is decided on the node alone. The shapes that are not clean, and that the code
  writes, are a date literal without a value (`DATE NULL`), a CASE without a WHEN, the negation of
  a text that starts with a minus (`(--5)` opens a comment), a number or, for Exasol, a field
  name written as it stands that is no numeral or name, and, for DataFusion, a field with a quote,
  which is put between quotes as it stands (`Unreadable`).
- `Accepted` says exactly which nodes render at all, in either dialect.
- `FunctionNames` takes functions by the name a request gives them: letter case does not matter,
  names outside the table are refused, and each name has the meaning written beside it.
- `Recover` reads the tree back into a normal form of the node: names upper-cased, junctions of
  one member and one-argument CONCAT collapsed, NULL entries of an IN list dropped, the two CASE
  encodings merged, double literals merged with exact ones, the two UTC timestamp kinds with each
  other, literals without a value with NULL, and a negated numeral with the literal that has the
  minus. So two clean nodes with one Exasol text have one normal form. The reader names every
  function, zone, pattern and type word it takes.
- `ExasolMeaning` gives a node its value under Exasol's rules, `Evaluate` gives SQL its value
  under DataFusion's. Both take what the two engines share (collation, arithmetic, calendar,
  pattern matching) from an arbitrary `Interp`, and keep apart what differs: NULL handling, the
  text of booleans and numbers, NULL-skipping GREATEST and LEAST, the empty string.
- `MeaningPreserved` proves the two values equal on a row for every rendering of a node that is
  *faithful* on that row. The conditions on literals, casts to text and IN lists are exact, each
  with its own if-and-only-if; the others say that junction members are boolean, that formatted
  numbers are numbers and that functions have no surplus arguments.
- `ExasolKept` is the same for the Exasol dialect: the text of a clean node, read as Exasol reads it,
  means what the node means on every row on which the node is *settled*. That asks that boolean
  literals have a value, that a double is the number it reads as, and that junction members are
  boolean and written.
- `Checked` joins the two halves of the DataFusion side. Given the kinds of the columns and of the shared functions'
  results, whether a node is *checked* is decided on the node alone, and a checked node is faithful
  on every row of those kinds. `Checked.TextKeepsMeaning` is the result: the text written for
  DataFusion from a checked and clean node reads back, and what is read has Exasol's value on every
  such row.

**Formats and types.** `DateFormat` is the translation of Exasol datetime formats to strftime
patterns, `DecimalText` the two regular-expression replacements that shorten a number's text,
`ExasolTypes` and `TypeText` the JSON and the spelling of data types.

**The catalog client.** `Redaction`, `LabelRedaction` and `ErrorText` remove secrets from error
text, `LabelOrder` holds what the list of labels has to meet;
`Backoff` and `Retries` are the retry loop of every catalog request; `TokenCache` is the OAuth
token source as a state machine over any number of callers; `Namespaces` is the paged walk over a
namespace tree; `Decisions` reads batched permission answers; `Vended` selects vended
credentials; `Identifiers` records and reads back table identifiers; `ColumnNodes` walks, strips
and rewrites column nodes.

**Export.** `Export` is the split of source rows over writers and what the writers count.

`Common` and `Json` hold shared values.

## Where the code falls short of a simple reading

Each of these has a lemma that shows the failure and one with the exact condition.

- A rendering that is not clean does not read back (`Unreadable`, `RenderReads.RenderingReadsBack`).
  Among these, the field of an EXTRACT is the one caller text that goes between quotes without its
  own quotes doubled: with a quote in it, it is never read as the field that was meant
  (`Unreadable.OneQuoteIsMisread`, `Unreadable.QuotedFieldIsMisread`).
- A boolean literal without a value, which is NULL, goes out as FALSE
  (`Discrepancies.NullBooleanGoesOutFalse`, `Preserve.BoolLiteralKept`).
- Of the NULL entries of an IN list only literals are dropped, so an entry that computes NULL turns
  a false answer into NULL (`Discrepancies.NullEntryIsKept`, `MeaningPreserved.InNodeKeptExactly`).
- The start position of INSTR and LOCATE is dropped (`Discrepancies.InstrKeptExactly`).
- A UTC timestamp literal with more than six significant fraction digits, and a timestamp literal
  with more than nine, loses digits (`Discrepancies.SeventhDigitIsLost`, `Preserve.UtcLiteralKept`,
  `Discrepancies.TenthDigitIsLost`, `Preserve.TimestampLiteralKept`). Exasol itself sends at most nine.
- A boolean column cast to text comes out in lower case, because only the node's kind is looked at
  (`Discrepancies.BooleanColumnLosesItsCasing`, `Discrepancies.ColumnTextKeptExactly`,
  `Preserve.TextCastKept`).
- A `literal_timestamputc` entry of an IN list renders to nothing for DataFusion and is then
  skipped without an error (`Discrepancies.InListCanLoseItsEntry`, `Discrepancies.InListKeptExactly`).
- The largest jitter reaches the top of the backoff range only while half the ceiling fits in 64
  bits of nanoseconds, though the comment says it always does (`Backoff.LargestJitterCanFallShort`,
  `Backoff.LargestJitter`).
- With a read timeout of zero a retry can start after the window (`Retries.LateRetry`,
  `Retries.WindowKeptExactly`).
- A secret that is part of the marker stays in the text (`Redaction.MarkerWordSurvives`,
  `Redaction.ValuePassIsComplete`).
- A secret that a label can spell comes back when the label pass writes the label in its own
  casing (`ErrorText.LabelSpellsSecret`, `ErrorText.SecretGoneExactly`).

## Model

| member | source | states |
|---|---|---|
| `SqlText.QuotingReadsBack` | crates/vs-expression/src/lib.rs:133-139 | doubling the quote is undone, for both quote characters, exactly if the text that follows does not start with the quote |
| `SqlText.LexFlatten` | crates/vs-expression/src/lib.rs:390-1159 | the characters written for a token list lex back to those tokens exactly if no two minus signs touch, and to nothing if two do |
| `SqlSpacing.ReadShow` | crates/vs-expression/src/lib.rs:390-1159 | the step for printable trees: the text parses back to the tree if and only if the tree is readable |
| `SqlRange.ReadIsPrintable` | crates/vs-expression/src/lib.rs:390-1159 | whatever text is read, the tree that is read is printable |
| `SqlRange.ReadsBackExactly` | crates/vs-expression/src/lib.rs:390-1159 | for every tree, the text parses back to that tree if and only if the tree is readable |
| `SqlUnique.ReadSpells` | crates/vs-expression/src/lib.rs:390-1159 | a text that reads as a tree has exactly the tree's tokens |
| `SqlUnique.ReadsExactly` | crates/vs-expression/src/lib.rs:390-1159 | a text reads as a readable tree if and only if its tokens are the tree's, so two texts of one tree differ in spaces at most |
| `SqlText.RawNeverReads` | crates/vs-expression/src/lib.rs:133-139 | text between quotes that holds the quote undoubled is never read as that text |
| `RenderReads.RenderingReadsBack` | crates/vs-expression/src/lib.rs:390-1185 | for both dialects and every node that renders, the reference parser recovers the written tree from the text if and only if the node is clean |
| `RenderReads.ShowsExactly` | crates/vs-expression/src/lib.rs:390-1185 | a rendering writes something exactly if the node is of a kind that is written in the dialect |
| `RenderReads.MinusExactly` | crates/vs-expression/src/lib.rs:751-763 | a written operand starts with a minus exactly if the node is a signed number, or a junction whose one written member is |
| `RenderReads.EmptyListExactly` | crates/vs-expression/src/lib.rs:546-568 | an IN list is left without entries exactly if every entry is a NULL literal or is not written |
| `Unreadable.UnescapedText` | crates/vs-expression/src/lib.rs:625 | the DataFusion field goes out between quotes as it stands, whatever it holds |
| `Unreadable.QuotedFieldIsMisread` | crates/vs-expression/src/lib.rs:603-627 | for every field with a quote and every operand, the DataFusion text reads neither as what was written nor as the call that was meant |
| `Unreadable.StrayQuoteReadsNothing` | crates/vs-expression/src/lib.rs:603-627 | a field of a quote-free text, a quote and a word leaves a quote open, so nothing is read where the operand has none |
| `Unreadable.OneQuoteIsMisread` | crates/vs-expression/src/lib.rs:603-627 | the field `a'b` of a column goes out as a text that reads as nothing |
| `Unreadable.RawFieldIsMisread` | crates/vs-expression/src/lib.rs:603-627 | the field `a b` goes out as it stands for Exasol and does not read back |
| `Unreadable.RawNumberIsMisread` | crates/vs-expression/src/lib.rs:431-436 | a number whose text is no numeral goes out as it stands and does not read back |
| `FunctionNames.UnknownNamesAreRefused` | crates/vs-expression/src/lib.rs:697-710 | a name that is not in the table in any letter case is an error in both dialects, whatever the arguments |
| `FunctionNames.ArmsAreTranslated` | crates/vs-expression/src/lib.rs:34-131 | the arms of the renderer and the table name the same functions |
| `FunctionNames.OperatorsMean` | crates/vs-expression/src/lib.rs:722-763 | ADD, SUB, MULT, FLOAT_DIV, MOD, NEG, CASE and CONCAT are read as the operations of those names |
| `FunctionNames.ChoicesMean` | crates/vs-expression/src/lib.rs:896-1028 | so are GREATEST, LEAST, NULLIF, NULLIFZERO, ZEROIFNULL, INSTR and LOCATE, with the last two taking their arguments in opposite order |
| `FunctionNames.FieldsMean` | crates/vs-expression/src/lib.rs:1029-1058 | so are YEAR to SECOND and WEEK |
| `FunctionNames.SpansMean` | crates/vs-expression/src/lib.rs:1075-1135 | so are the conversions and the spans between two times |
| `FunctionNames.VerbatimCallKeepsName` | crates/vs-expression/src/lib.rs:711-719 | in the Exasol dialect a verbatim call has its name in upper case and all its arguments in order, or the failure of one |
| `FunctionNames.SameTextSameCall` | crates/vs-expression/src/lib.rs:697-719 | two clean verbatim calls with one text have one name, letter case aside, and arguments of one normal form |
| `Unreadable.NullDateIsMisread` | crates/vs-expression/src/lib.rs:437 | a date literal without a value goes out as `DATE NULL` and does not read back |
| `Unreadable.BareCaseIsMisread` | crates/vs-expression/src/lib.rs:630-672 | a CASE with an ELSE alone goes out without a WHEN and does not read back |
| `Unreadable.DoubledMinusIsMisread` | crates/vs-expression/src/lib.rs:751-763 | the negation of minus five goes out as `(--5)` and does not read back |
| `RenderReads.GuardedFits` | crates/vs-expression/src/lib.rs:964-984 | the NULL guard around GREATEST and LEAST can stand as an operand anywhere and is readable exactly if its arguments are |
| `RenderReads.CaseFits` | crates/vs-expression/src/lib.rs:630-672 | a written CASE can stand as an operand anywhere, and is readable exactly if it has a WHEN and its parts are readable |
| `RenderReads.CastFits` | crates/vs-expression/src/lib.rs:314-387 | a written cast can stand as an operand anywhere, for every target type of both dialects, and is readable exactly if its operand is |
| `Recover.TextRecoversNode` | crates/vs-expression/src/lib.rs:390-1185 | from the Exasol text of any clean node the reference reader recovers the node's normal form |
| `ExasolKept.ExasolTextKept` | crates/vs-expression/src/lib.rs:390-1185 | on every row on which a clean node is settled, its Exasol text reads back and what is read means what the node means |
| `ExasolKept.NormKeepsMeaning` | crates/vs-expression/src/lib.rs:390-1185 | the normal form of a settled node has the node's value on every row |
| `ExasolKept.LiteralNormExactly` | crates/vs-expression/src/lib.rs:411-485 | a literal's Exasol form keeps its value if and only if a boolean has one and a double is the number it reads as |
| `ExasolKept.OneConcatExactly` | crates/vs-expression/src/lib.rs:838-874 | the one operand of a CONCAT stands for it if and only if it is a text that is not empty, or NULL |
| `Accepted.RendersExactly` | crates/vs-expression/src/lib.rs:390-1185 | a node renders if and only if it is accepted: no missing name or operand, the right number of arguments, a known function, a castable type, a covered format, in each dialect and at every depth |
| `Recover.SameTextSameNode` | crates/vs-expression/src/lib.rs:390-1185 | two clean nodes with one Exasol text have one normal form |
| `RenderLoops.RenderJunction` | crates/vs-expression/src/lib.rs:1161-1185 | the loop over a junction's members: absent members and members with an empty text skipped, the first error returned, empty and single junctions collapsed |
| `RenderLoops.BlankText` | crates/vs-expression/src/lib.rs:1161-1185 | only a number with an empty text is written as the empty text |
| `RenderLoops.RenderInList` | crates/vs-expression/src/lib.rs:546-568 | the loop over IN entries: NULL literals skipped, the first error returned, FALSE for no entries |
| `RenderLoops.RenderInterleavedCase` | crates/vs-expression/src/lib.rs:930-963 | the loop over interleaved CASE arguments pairs conditions and results, with an ELSE for an odd argument |
| `Checked.TextKeepsMeaning` | crates/vs-expression/src/lib.rs:390-1185 | the text written for DataFusion from a checked, clean node reads back, and on every row of the declared kinds what is read has the value the node has in Exasol |
| `Checked.FaithfulTextKept` | crates/vs-expression/src/lib.rs:390-1185 | on a row on which a clean node is faithful, its DataFusion text reads back and has the value the node has in Exasol |
| `Checked.CheckedIsFaithful` | crates/vs-expression/src/lib.rs:390-1185 | a node that passes the check on its own structure is faithful on every row of the declared kinds |
| `Checked.KindHolds` | crates/vs-expression/src/lib.rs:159-180 | on every row of the declared kinds a node's value has the kind read off the node |
| `MeaningPreserved.RenderKept` | crates/vs-expression/src/lib.rs:390-1185 | the step on trees: on every row the tree written for DataFusion from a faithful node has the value the node has in Exasol |
| `MeaningPreserved.InNodeKeptExactly` | crates/vs-expression/src/lib.rs:546-568 | a rendered IN node keeps its value if and only if no kept entry is NULL, or some kept entry is not and the target is NULL or equals one |
| `MeaningPreserved.ConcatKept` | crates/vs-expression/src/lib.rs:838-874 | `nullif(concat(…), '')` takes NULL for the empty text and gives NULL for it, as Exasol's concatenation does |
| `MeaningPreserved.ParseKept` | crates/vs-expression/src/lib.rs:259-312 | a formatted TO_DATE or TO_TIMESTAMP parses as Exasol does with the translated pattern, the empty text as NULL |
| `Preserve.TextCastKept` | crates/vs-expression/src/lib.rs:363-387 | a cast to text keeps its value if and only if the operand is of a boolean kind, or is neither a boolean nor a number whose decimal text has a fraction that ends in zero |
| `Preserve.DfTypeKept` | crates/vs-expression/src/lib.rs:321-346 | the DataFusion cast target reads back as the asked-for type, all character types as one |
| `Preserve.UtcLiteralKept` | crates/vs-expression/src/lib.rs:468-482 | a UTC timestamp literal keeps its instant if and only if it has at most six significant fraction digits |
| `Preserve.TimestampLiteralKept` | crates/vs-expression/src/lib.rs:204-213 | a timestamp literal keeps its moment if and only if it has at most nine significant fraction digits, six if its value is no string |
| `Preserve.BoolLiteralKept` | crates/vs-expression/src/lib.rs:412-422 | a boolean literal goes out as what its value says (true, `true`, `TRUE` and 1 say true) if and only if it has one |
| `ExasolMeaning.ShortTextKept` | crates/vs-expression/src/lib.rs:348-354 | the shortest form of a decimal text is the text itself if and only if it has no fraction that ends in zero |
| `Preserve.DecimalKept` | crates/vs-expression/src/lib.rs:348-354 | the nested replacements give every number and NULL the text Exasol's own cast gives |
| `Preserve.JoinKept` | crates/vs-expression/src/lib.rs:1161-1185 | a written AND or OR of any number of members has the three-valued value of all or any of them |
| `Preserve.CaseKept` | crates/vs-expression/src/lib.rs:630-672 | a written CASE picks what the node picks, with and without basis, NULL where no branch fires and no ELSE stands |
| `Preserve.InterleavedKept` | crates/vs-expression/src/lib.rs:930-963 | the interleaved encoding picks what the CASE function picks |
| `Preserve.GuardedKept` | crates/vs-expression/src/lib.rs:964-984 | the guard turns DataFusion's NULL-skipping extreme into Exasol's, NULL as soon as one argument is |
| `Preserve.ApplyKept` | crates/vs-expression/src/lib.rs:696-1135 | every declared scalar function but CONCAT, written with its DataFusion form and without surplus arguments, has Exasol's value on all arguments |
| `DfCalls.DfNameDenotes` | crates/vs-expression/src/lib.rs:758-895 | the DataFusion name of each one-to-one function stands for the operation Exasol's name stands for |
| `ExasolMeaning.BooleanKindIsBoolean` | crates/vs-expression/src/lib.rs:159-180 | the code takes a node for boolean-producing if and only if it is one of nine kinds, and these are true, false or NULL on every row |
| `Discrepancies.InListKeptExactly` | crates/vs-expression/src/lib.rs:483-568 | a constant IN list over a column keeps its value on every row if and only if each skipped `literal_timestamputc` entry equals a kept entry |
| `Discrepancies.InListCanLoseItsEntry` | crates/vs-expression/src/lib.rs:483-568 | an IN list of one such entry renders to FALSE though a row can match |
| `Discrepancies.BooleanColumnLosesItsCasing` | crates/vs-expression/src/lib.rs:363-387 | a boolean column cast to text differs from Exasol on some row, under every interpretation |
| `Discrepancies.ColumnTextKeptExactly` | crates/vs-expression/src/lib.rs:363-387 | a column cast to text keeps its value on every row if and only if the column holds no booleans, and no numbers unless every number is written without a fraction that ends in zero |
| `Discrepancies.NullEntryIsKept` | crates/vs-expression/src/lib.rs:546-568 | `x IN (1, NULLIF(1, 1))` differs from Exasol where x is neither NULL nor 1 |
| `Discrepancies.NullBooleanGoesOutFalse` | crates/vs-expression/src/lib.rs:412-422 | a boolean literal without a value means NULL and goes out as FALSE |
| `Discrepancies.InstrKeptExactly` | crates/vs-expression/src/lib.rs:896-929 | INSTR and LOCATE over columns keep their values under all interpretations if and only if they have two arguments |
| `Discrepancies.SeventhDigitIsLost` | crates/vs-expression/src/lib.rs:468-482 | a UTC timestamp literal with a seventh significant fraction digit loses it |
| `Discrepancies.TenthDigitIsLost` | crates/vs-expression/src/lib.rs:452-467 | a timestamp literal with a tenth significant fraction digit, which Exasol does not send, loses it |
| `DateFormat.StrftimePattern` | crates/vs-expression/src/datetime_format.rs:18-46 | the match loop, with its gap and rest checks, computes the translation of a format |
| `DateFormat.AcceptsExactlyTheFormats` | crates/vs-expression/src/datetime_format.rs:13-83 | the greedy scan accepts a format if and only if it can be cut into parts and the eight separators with year, month and day once each and, for a timestamp, perhaps hours and minutes, and then perhaps seconds with at most one fraction |
| `DateFormat.ScanFindsCut` | crates/vs-expression/src/datetime_format.rs:13-46 | however a text is cut into parts, the scan finds that cut, a point before a fraction merged into it |
| `DateFormat.TranslationDecodes` | crates/vs-expression/src/datetime_format.rs:18-46 | the pattern decodes back to the upper-cased format |
| `DateFormat.TranslationInjective` | crates/vs-expression/src/datetime_format.rs:18-46 | two formats with one pattern differ in letter case only |
| `DecimalText.ExasolStyleIsShortestForm` | crates/vs-expression/src/lib.rs:348-354 | the two replacements keep the value, leave no trailing fractional zero and no trailing point, leave integers alone, are idempotent, and give equal values with the same integer digits one shortest text |
| `DecimalText.ShortIsCanonical` | crates/vs-expression/src/lib.rs:348-354 | equal values with the same sign and integer digits have one short form |
| `ExasolTypes.JsonReadsBack` | crates/vs-expression/src/exasol_type.rs:216-366 | a type's JSON reads back as that type if it lies within Exasol's limits, and is refused otherwise |
| `ExasolTypes.FromJsonExactly` | crates/vs-expression/src/exasol_type.rs:268-362 | any JSON is read as a type if and only if it declares that type, its name in any letter case and its omitted fields by their defaults, within the limits in numbers |
| `ExasolTypes.FromJson` | crates/vs-expression/src/exasol_type.rs:268-346 | every type the reader accepts lies within the limits |
| `ExasolTypes.BoundedField` | crates/vs-expression/src/exasol_type.rs:348-362 | an accepted field lies within its bounds |
| `TypeText.DisplayReadsBack` | crates/vs-expression/src/exasol_type.rs:163-214 | a reference reader, which names each word, inverts the spelling of every type, so distinct types never print alike |
| `TypeText.TokensReadBack` | crates/vs-expression/src/exasol_type.rs:163-214 | no two types share a token list |
| `TypeText.TokensAreType` | crates/vs-expression/src/exasol_type.rs:163-214 | every spelling is a balanced type text, so it can stand in a cast |
| `Redaction.RedactSecretValues` | crates/lakehouse-catalog/src/redaction.rs:3-11 | the loop replaces each non-empty secret in turn |
| `Redaction.ValuePassIsComplete` | crates/lakehouse-catalog/src/redaction.rs:3-11 | for bracket-free secrets: no listed secret remains in any text if and only if no non-empty secret is part of the marker |
| `Redaction.MarkerWordSurvives` | crates/lakehouse-catalog/src/redaction.rs:3-11 | the secret `REDACTED` stays in the text it was to be removed from |
| `Redaction.ReplaceCreatesNothing` | crates/lakehouse-catalog/src/redaction.rs:3-11 | a replacement never makes a bracket-free text that is not part of the marker |
| `Redaction.ValuesStayGone` | crates/lakehouse-catalog/src/redaction.rs:3-11 | a secret that was removed, or never there, stays out through all later replacements |
| `Redaction.ReplaceUndone` | crates/lakehouse-catalog/src/redaction.rs:3-11 | a replacement touches nothing else: in text without brackets, putting the secret back for the marker restores the text |
| `LabelRedaction.RedactLabels` | crates/lakehouse-catalog/src/redaction.rs:42-63 | the nested cursor loops end and compute the passes one after the other, for any labels |
| `LabelRedaction.RedactCredentials` | crates/lakehouse-catalog/src/redaction.rs:14-64 | every occurrence of every label, ASCII case aside, is followed at once by the marker and then a delimiter or the end; a second run changes letter case at most |
| `LabelRedaction.LabelPassIsComplete` | crates/lakehouse-catalog/src/redaction.rs:14-64 | the same as a law of the passes over the code's own labels |
| `LabelRedaction.LabelsAreKnown` | crates/lakehouse-catalog/src/redaction.rs:15-40 | the code's list holds exactly the named labels of connections, object stores, AWS and Azure |
| `LabelRedaction.PassCutsValue` | crates/lakehouse-catalog/src/redaction.rs:42-63 | where a label first stands, in any letter case, it is written in its own, the text behind it up to the first of seven characters gives way to the marker, and the pass goes on with the rest |
| `LabelRedaction.PassUndone` | crates/lakehouse-catalog/src/redaction.rs:42-63 | a pass takes out labels with their values and nothing else: in text without brackets, putting them back restores the text |
| `LabelRedaction.PassKeeps` | crates/lakehouse-catalog/src/redaction.rs:42-63 | a pass redacts its own label and undoes no other label's redaction |
| `LabelRedaction.PassAllAgain` | crates/lakehouse-catalog/src/redaction.rs:42-63 | on redacted text all passes together change letter case at most |
| `LabelRedaction.PassAllCreatesNothing` | crates/lakehouse-catalog/src/redaction.rs:42-63 | bracket-free text outside the marker is in the output only if, letter case aside, it was in the input |
| `LabelRedaction.CleanTextKept` | crates/lakehouse-catalog/src/redaction.rs:42-63 | text in which no label occurs is left alone |
| `ErrorText.RedactErrorText` | crates/lakehouse-catalog/src/redaction.rs:66-71 | values first, labels second: every label is redacted; a safe secret is gone after the values, and gone from the result unless a label can bring it back; letter case aside no secret comes in with the label pass |
| `ErrorText.SecretGoneExactly` | crates/lakehouse-catalog/src/redaction.rs:13-71 | a listed secret that is no part of the marker is gone from every message, whatever else is listed, if and only if no label, laid over its end, spells it with all labels around it ending there and none of them later in the list |
| `ErrorText.OnlyRevivable` | crates/lakehouse-catalog/src/redaction.rs:42-63 | for any ordered list of labels, a text that the passes bring in is one that a label spells in that way |
| `ErrorText.Revives` | crates/lakehouse-catalog/src/redaction.rs:42-63 | for any ordered list of labels, every such text is brought in from some message without it |
| `ErrorText.InnerLabelStaysGone` | crates/lakehouse-catalog/src/redaction.rs:42-63 | a secret with a label in it that does not end it never comes back |
| `ErrorText.LabelSpellsSecret` | crates/lakehouse-catalog/src/redaction.rs:66-71 | with the secret `sig=`, the text `SIG=x` comes out with the secret in it |
| `LabelOrder.LabelsAreOrdered` | crates/lakehouse-catalog/src/redaction.rs:14-40 | no label of the code lies inside an earlier one |
| `Backoff.WaitInRange` | crates/lakehouse-catalog/src/catalog_http.rs:345-354 | the wait lies between half the saturated ceiling and the ceiling, at the lower end for jitter zero |
| `Backoff.WaitGrowsWithJitter` | crates/lakehouse-catalog/src/catalog_http.rs:345-354 | more jitter never waits less |
| `Backoff.CeilingGrows` | crates/lakehouse-catalog/src/catalog_http.rs:345-354 | the ceiling never shrinks from one retry to the next |
| `Backoff.CeilingDoubles` | crates/lakehouse-catalog/src/catalog_http.rs:345-354 | the first ceiling is the base and each of the next 31 retries doubles it, up to the longest duration |
| `Backoff.ProductFits` | crates/lakehouse-catalog/src/catalog_http.rs:345-354 | the nanosecond product fits in 128 bits at every duration |
| `Backoff.LargestJitter` | crates/lakehouse-catalog/src/catalog_http.rs:343-354 | the largest jitter reaches the ceiling if and only if the spread fits in 64 bits of nanoseconds |
| `Backoff.LargestJitterCanFallShort` | crates/lakehouse-catalog/src/catalog_http.rs:343-354 | with the longest base it does not |
| `Retries.ReadBody` | crates/lakehouse-catalog/src/catalog_http.rs:287-302 | the first `max` bytes of what arrives, cut exactly if more arrive; a broken-off body is an error unless the cap was passed |
| `Retries.DoExchange` | crates/lakehouse-catalog/src/catalog_http.rs:173-195 | one exchange gives the answer, the failure, or the failure with the status of a broken-off body |
| `Retries.IsTransientCauseChain` | crates/lakehouse-catalog/src/catalog_http.rs:378-400 | true exactly if some cause cut the connection and none is a TLS error |
| `Retries.SendCapped` | crates/lakehouse-catalog/src/catalog_http.rs:152-171 | the loop makes the attempts of the specified run and returns the last outcome |
| `Retries.WaitJustifies` | crates/lakehouse-catalog/src/catalog_http.rs:197-217 | a retry is due only after a transient outcome, with attempts left and a clone, after the stated wait or else the backoff, and only if a read timeout then fits in the window |
| `Retries.RunLawful` | crates/lakehouse-catalog/src/catalog_http.rs:152-217 | in every run each attempt sends the original request, meets its turn of the world, and is justified by the one before |
| `Retries.RunStops` | crates/lakehouse-catalog/src/catalog_http.rs:152-171 | every run ends, within the attempts, at an outcome after which no retry is due |
| `Retries.ExchangeExactly` | crates/lakehouse-catalog/src/catalog_http.rs:173-195 | an exchange reports the reply's own status, stated wait and first bytes, or the failure, with the status exactly if the body broke off within the cap; it is transient if and only if no reply came by a timeout or a cut connection without a TLS error, or a reply with status 408, 429, 502, 503 or 504 came whole or passed the cap |
| `Retries.EveryRun` | crates/lakehouse-catalog/src/catalog_http.rs:152-217 | at most max(1, attempts) requests, all equal to the original, one if it cannot be cloned; each attempt reports the reply it met, and one that is followed by another met such a transient reply; after such a reply to the last attempt with attempts left, the wait it asks for and a read timeout do not fit in the window |
| `Retries.WindowKeptExactly` | crates/lakehouse-catalog/src/catalog_http.rs:356-370 | counted without late waking, every retry of every run starts a read timeout before the window's end if and only if the policy has a read timeout or nothing is retried |
| `Retries.LateRetry` | crates/lakehouse-catalog/src/catalog_http.rs:356-370 | with a zero read timeout an answer past the window that asks for no wait is retried too late |
| `Retries.CatalogRuns` | crates/lakehouse-catalog/src/catalog_http.rs:33-41 | under the engine's own policy at most five requests go out and no retry starts later than 20 seconds in, late waking apart |
| `TokenCache.Mint` | crates/lakehouse-catalog/src/unity/auth.rs:87-110 | a mint succeeds if and only if the reply has a non-empty token and a positive lifetime |
| `TokenCache.OAuthTokenSource.Bearer` | crates/lakehouse-catalog/src/unity/auth.rs:66-85 | one undisturbed call: a hit changes nothing, a failed mint changes nothing, a mint replaces the cache |
| `TokenCache.StepKeeps` | crates/lakehouse-catalog/src/unity/auth.rs:66-85 | every atomic step of every caller keeps the invariant that ties the cache to the last store |
| `TokenCache.RunKeeps` | crates/lakehouse-catalog/src/unity/auth.rs:66-110 | the invariant holds in every state of every interleaving |
| `TokenCache.ReturnedWasMinted` | crates/lakehouse-catalog/src/unity/auth.rs:66-110 | any returned bearer was minted with a non-empty token and a positive lifetime |
| `TokenCache.ServedInTime` | crates/lakehouse-catalog/src/unity/auth.rs:66-85 | a bearer from the cache is the last stored one, with more than 60 seconds left of its lifetime counted from the clock read after its mint |
| `TokenCache.NoNeedlessMint` | crates/lakehouse-catalog/src/unity/auth.rs:66-85 | a mint while more than 60 seconds remain of a stored token happens only if a call already under way at that store has overwritten it since |
| `TokenCache.SequentialCallsReuse` | crates/lakehouse-catalog/src/unity/auth.rs:66-85 | calls that do not overlap are served from the cache while more than 60 seconds remain of any token stored before |
| `Namespaces.PagingExactly` | crates/lakehouse-catalog/src/namespace.rs:102-137 | each request but the first asks with the token of the page before, and a listing ends at a failure or at a page without a token or with an empty one |
| `Namespaces.ListPages` | crates/lakehouse-catalog/src/namespace.rs:102-137 | the loop over page tokens ends for every finite paging, empty pages included, with all items in order or the failure |
| `Namespaces.ListNamespace` | crates/lakehouse-catalog/src/namespace.rs:48-58 | one namespace's tables, and its children if the walk descends, or the failure of either listing |
| `Namespaces.ListLevel` | crates/lakehouse-catalog/src/namespace.rs:48-66 | one round succeeds if and only if every listing of the level does, and keeps the order |
| `Namespaces.ListNamespaceTables` | crates/lakehouse-catalog/src/namespace.rs:31-69 | the walk ends and returns the tree's tables level by level; under SigV4 exactly the root's own, whatever the child listing would do; an empty root is an error |
| `Namespaces.WalkReturnsEveryTable` | crates/lakehouse-catalog/src/namespace.rs:31-69 | the walk succeeds if and only if every listing below the root does, and then returns each table of the root and its descendants exactly once, depth by depth |
| `Decisions.DistinctInFirstSeenOrder` | crates/lakehouse-catalog/src/lakekeeper.rs:86-93 | each table once, in the order of first occurrence |
| `Decisions.CheckIdInjective` | crates/lakehouse-catalog/src/lakekeeper.rs:117-123 | no two indices share a check id |
| `Decisions.ReadDecisions` | crates/lakehouse-catalog/src/lakekeeper.rs:208-229 | the map-filling loops compute the answer, all or nothing |
| `Decisions.AnswerIsOwn` | crates/lakehouse-catalog/src/lakekeeper.rs:206-229 | there is an answer if and only if the result ids are distinct and exactly the issued ones; each table then gets the boolean of its own id, in order |
| `Decisions.AnswerIgnoresOrder` | crates/lakehouse-catalog/src/lakekeeper.rs:208-229 | permuting the results changes nothing |
| `ColumnNodes.StripAfterRewrite` | crates/vs-expression/src/column_node.rs:78-117 | stripping after an alias rewrite, with any stateful callback, equals stripping alone |
| `ColumnNodes.StripClears` | crates/vs-expression/src/column_node.rs:77-89 | a strip removes every `tableAlias` at every depth and changes nothing where there is none |
| `ColumnNodes.WalkStripped` | crates/vs-expression/src/column_node.rs:57-89 | where every `tableAlias` is a scalar, walking the stripped tree visits the same columns in the same order, without aliases |
| `ColumnNodes.FromMapExactly` | crates/vs-expression/src/column_node.rs:17-32 | a map is read as a column if and only if its `type` is `column` and its `name` a text, with `tableName` and `tableAlias` where they are texts |
| `ColumnNodes.WalkVisitsExactly` | crates/vs-expression/src/column_node.rs:57-76 | the walk visits exactly the columns that stand somewhere in the tree, at any depth of objects and arrays |
| `ColumnNodes.RewriteFeeds` | crates/vs-expression/src/column_node.rs:91-117 | with any stateful callback, a rewrite hands it the columns in one fixed order up to the first failure, and fails exactly then |
| `ColumnNodes.CallsAreWalked` | crates/vs-expression/src/column_node.rs:57-117 | the rewrite visits the columns the walk visits, each as often |
| `ColumnNodes.RewriteFailsExactly` | crates/vs-expression/src/column_node.rs:91-117 | with any stateful callback, a rewrite fails if and only if the callback, fed the columns in their order, fails at one of them |
| `ColumnNodes.PureRewriteFails` | crates/vs-expression/src/column_node.rs:57-117 | with a callback without state, exactly if it fails on some column the walk visits |
| `ColumnNodes.CallsRewritten` | crates/vs-expression/src/column_node.rs:57-117 | with any stateful callback and where every `tableAlias` is a scalar, the columns of the rewritten tree, in the order of the calls, are the columns handed out, each with the alias given at that call |
| `ColumnNodes.WalkRewritten` | crates/vs-expression/src/column_node.rs:57-117 | with any stateful callback and where every `tableAlias` is a scalar, walking the rewritten tree visits the same columns in the same order, each with the alias given at its call |
| `ColumnNodes.GivenPurely` | crates/vs-expression/src/column_node.rs:57-117 | with a callback without state these are the walked columns, each with what the callback gives it |
| `ColumnNodes.ColumnRewritten` | crates/vs-expression/src/column_node.rs:17-32 | a rewritten map is read as the same column, with the new alias |
| `Identifiers.RestIdentReadsBack` | crates/lakehouse-catalog/src/client.rs:357-364 | a recorded identifier reads back as itself if and only if it has a namespace and no part holds a dot |
| `Identifiers.SplitJoin` | crates/lakehouse-catalog/src/namespace.rs:17-28 | splitting undoes joining for dot-free parts |
| `Identifiers.GlueIdentReadsBack` | crates/lakehouse-catalog/src/glue/client.rs:280-295 | a recorded Glue identifier reads back as itself if and only if it has one non-blank dot-free database and a non-blank name, dotted ones included |
| `Vended.FoldsSchemeOnly` | crates/lakehouse-catalog/src/vended.rs:70-78 | only letters before the first `://` are folded |
| `Vended.CredentialsAreChosen` | crates/lakehouse-catalog/src/vended.rs:47-68 | the configuration handed out is that of the last longest entry whose prefix is not empty and begins the location, letter case of the schemes aside, and the flat one if there is no list or no such entry |
| `Vended.BestIsLongest` | crates/lakehouse-catalog/src/vended.rs:50-68 | an entry is selected if and only if one matches, and it is a longest match |
| `Vended.BestIsLast` | crates/lakehouse-catalog/src/vended.rs:50-68 | of the longest matches the last one is taken |
| `Vended.SameLengthSamePrefix` | crates/lakehouse-catalog/src/vended.rs:50-78 | matches of one length name one folded prefix |
| `Vended.SelectionIgnoresOrder` | crates/lakehouse-catalog/src/vended.rs:50-68 | the selected prefix does not depend on the order of the entries, nor does the configuration unless two entries name it |
| `Vended.SasIsSmallestKey` | crates/lakehouse-catalog/src/vended.rs:105-129 | the token of the exact host spelling, else of the smallest key for the host in any casing, else an error |
| `Vended.SasIgnoresOrder` | crates/lakehouse-catalog/src/vended.rs:105-129 | the pick depends on the map's contents, never on its iteration order |
| `Export.GroupCount` | crates/lakehouse-engine/src/exasol.rs:14-18 | between 1 and 300, within the upper bound, and the product itself where it lies in that range |
| `Export.RunWriter` | crates/lakehouse-engine/src/export.rs:35-50 | a writer reads its group to the end and reports its rows, or refuses a forged spec and an unreadable connection; an empty group counts zero |
| `Export.ExportConserves` | crates/lakehouse-engine/src/export.rs:263-285 | for every row count, node count and layout each row is in exactly one group, the counts add up to the rows, min(rows, groups) groups hold rows, and there are 1 to 300 groups |
| `Export.RunExport` | crates/lakehouse-engine/src/export.rs:35-285 | running a writer on each group that holds rows, the reports add up to the rows of the source and min(rows, groups) writers run, or the export fails, exactly if there are rows and the spec or the connection is refused |

## Left out

- `Checked.TextKeepsMeaning`: asks for a *checked* node. Literals keep within the digits above and booleans have a value, operands of text casts and concatenations are of boolean-producing kinds, or neither booleans nor numbers that can be written with a fraction ending in zero, junction members are boolean, IN entries are written and never NULL (literals, columns declared so, tests for NULL), formatted numbers are numbers, and a function has no surplus arguments. Outside these the exact conditions are stated one construct at a time, not for whole trees.
- `Preserve.ApplyKept`: leaves CONCAT to `MeaningPreserved.ConcatKept`, and leaves out arguments the code drops; `Discrepancies.InstrKeptExactly` has the two functions for which Exasol takes them.
- `ExasolKept.ExasolTextKept`: takes Exasol's reading of SQL from `Recover.Unrender`, which covers what the code writes; a double literal is assumed to be the number its bare text reads as.
- `Discrepancies.InListKeptExactly`: is for constant entries over a column, where every row is possible.
- `Redaction.ValuePassIsComplete`: is for secrets without brackets; a secret with one can be put together from a marker and the text beside it.
- `Namespaces.ListPages`: takes a paging that ends; a catalog that hands out tokens for ever keeps the code in its loop.
- `Export.RunWriter`: takes the group's rows as a count; reading the writer spec is an optional value and connection access a predicate.
- `Vended.SasIsSmallestKey`: takes the host as given; cutting it out of the location is not modelled.
- `ColumnNodes.StripAfterRewrite`: the callback's state is passed along as a value instead of being changed in place.
- The JSON reading of expression nodes: the model starts from typed nodes, so missing `arguments` arrays, array or object literal values and the order and wording of errors are not captured.
- `function_aggregate` and `literal_binary` nodes: flat arms that add no structure.
- Full Unicode upper-casing of names: ASCII upper-casing is used, and text is a sequence of characters rather than UTF-8 bytes.
- `DAYS_BETWEEN` and the other `*_BETWEEN` functions: their Exasol meaning is given by the formula the code writes for DataFusion, so their preservation says only that the formula is written correctly.
- Length checks of CHAR and VARCHAR casts, floating-point results, trigonometry and calendar arithmetic: arbitrary functions shared by both engines.
- `Retry-After` dates, TLS, DNS and the HTTP library: an exchange is a reply, a duration, an optional stated wait, a jitter and a late waking.
- Overflow of an `Instant` beyond its range, and of a 64-bit row counter.
- The bounded concurrency of listings: results are collected in order, so the model lists one namespace after another.
- Storage back ends, Unity and Glue admission rules, the adapter, scan and pushdown planning, and the export statement's option checks: decision tables that one reading settles.
