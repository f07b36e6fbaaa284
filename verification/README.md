# DuraDB: a verified model of storage, SQL front end and execution

DuraDB is an in-memory SQL engine. This project models the three parts of it that carry hard
properties, from the bytes of a text column up to the answer to a line of SQL, and proves that they
fit together. The command that verifies the project is `dafny verify dfyconfig.toml`.

**Storage** (`TextLayout`, `ColumnBuffer`, `ColumnBatch`, `RowGroup`, `TableLayout`, `TableStorage`,
`BatchEncoding`).
A table is a list of sealed row groups and an active one; each group is a set of column buffers; text
is one blob per column and group, with 32-bit offsets. The objects are classes with the source's own
fields and loops, and their abstract value is a list of rows. Rows added one at a time seal a full
group lazily, batches seal it eagerly; both are proved to add exactly the right rows, and the last operation
decides the groups (`LastOperationSeals`). A columnar batch is accepted exactly if it is the explicit
encoding of some rows with anything behind its blobs and spans (`AcceptedIff`). The capacity of a group
is a symbolic positive constant.

The blob of a text column is not bounded by the code, while its offsets are. The model keeps the
narrowing: `Scan` is what reading a table really returns, wrapped offsets included. A string is read
back whatever the bytes around it exactly if it is empty, or starts below 2^32 and is shorter than 2^32
(`ReadBackIff`); a table scans as the rows that were added to it, whatever the bytes of its strings,
exactly if this holds of every string of every run of capacity rows (`ScanExactIff`), for which it is
enough that no text column of a run has 2^32 bytes (`SmallRunsReadable`). `WrappedScanIsWrong` is a row
that is scanned as another one.

Debug assertions are not part of the behaviour: a group that is handed an empty batch lengthens its last
string by the batch's bytes, as the program does without them.

**Front end** (`Tokens`, `Lexer`, `LexerTheorems`, `Rendering`, `Spellings`, `Numbers`, `ParserSpec`,
`Parser`, `Grammar`, `StatementGrammar`, `Printing`, `CanonicalText`, `ParsedStatements`, `Lookahead`,
`SyntaxErrors`). The lexer and the
recursive-descent parser are classes that advance through the input; they are proved to compute
recursive functions of the remaining text, and these in turn to accept exactly the sentences of a
layered grammar, given as derivation trees. Printing a statement with the fewest parentheses, in any
spelling and spacing, and reading it again gives the statement back. The words and marks of the language
are written out letter by letter in `Spellings`. What is read depends on the symbols consumed and on one
more (`Lookahead`), so a syntax error is reported at the first symbol with which no sentence goes on, and
nowhere else (`SyntaxErrors`).

**Binding and execution** (`Values`, `Schema`, `BoundExpressions`, `PredicateMeaning`,
`CatalogModel`, `RunTheorems`, `SelectMeaning`, `Footprints`, `SchemaCatalog`, `Session`, `Binder`,
`Executor`). A value keeps its type tag and its payload apart, and reading the wrong payload aborts, so
that "this never happens" is something to prove. `CatalogModel` gives binding and execution as
functions of the catalogs; the session with its nested maps of table objects refines them.

**The whole** (`Engine`, `Effects`, `EndToEnd`). `Effects` says what each statement reads and changes in
terms of the map of databases alone. A script of texts and connect commands goes through lexer, parser,
binder and executor; the session ends in the state the model predicts, every line gets the answer the
model predicts, and a SELECT after the script returns the satisfying rows of the literal rows inserted.

An outcome is `Ok`, `Fail` (an ordinary error) or `Abort` (a failed assertion, a wrong variant access
or a null dereference).

Where documentation and code differ, the code is followed: the sample session in the repository's
README shows two rows for `SELECT name FROM users WHERE id > 1` over ids 1 and 2, and
`EndToEnd.SampleSession` proves that only the second satisfies the condition.

## Model

| member | source | states |
|---|---|---|
| TextLayout.TextAtStart | src/storage/column_buffer.cpp:37-40 | every appended string occupies its own range of the blob, directly before the next one |
| TextLayout.ReadRange | src/storage/column_buffer.cpp:58-64 | a read never leaves the blob, and covers the range of the string exactly if the string starts below 2^32 and is shorter than 2^32 |
| TextLayout.ReadBack | src/storage/column_buffer.cpp:58-64 | a string that is empty or within the 32-bit layout is read back unchanged, whatever was appended around it |
| TextLayout.LongIsNeverReadBack | src/storage/column_buffer.cpp:58-64 | a string of 2^32 bytes or more is never read back |
| TextLayout.ReadBackIff | src/storage/column_buffer.cpp:58-64 | string i is read back for all strings of the same lengths exactly if it is empty, or starts below 2^32 and is shorter than 2^32 |
| TextLayout.WrappedReadIsWrong | src/storage/column_buffer.cpp:58-64 | a counterexample to reading back without the bound: a string of 2^32 bytes reads as empty |
| TextLayout.SmallBlobFits | src/storage/column_buffer.cpp:37-64 | while the blob is below 2^32 bytes every string fits |
| TextLayout.FitsPrefix | src/storage/column_buffer.cpp:37-56 | appending never moves an earlier string, and never makes an earlier string stop fitting |
| TextLayout.AbsorbedIffTight | src/storage/column_buffer.cpp:42-56 | copying the whole blob gives the strings the offsets delimit exactly if the last offset is the length of the blob |
| TextLayout.AppendAbsorbed | src/storage/column_buffer.cpp:48-55 | copying a batch's blob and rebasing its offsets is the layout of the old strings followed by the absorbed ones |
| TextLayout.AppendOne | src/storage/column_buffer.cpp:37-40 | pushing the blob's length, narrowed to 32 bits, and appending the bytes is the layout of one string more |
| ColumnBuffers.IntColumnBuffer.AppendSpan | src/storage/column_buffer.cpp:15-18 | the values become the old ones followed by the span |
| ColumnBuffers.TextColumnBuffer.Append | src/storage/column_buffer.cpp:37-40 | offsets and bytes stay the layout of the appended strings, now with one more |
| ColumnBuffers.TextColumnBuffer.AppendBatch | src/storage/column_buffer.cpp:42-56 | for any offsets, the blob and the rebased, narrowed offsets are added; for valid ones the buffer gains the absorbed strings, or without rows lengthens its last string, and it stays the layout of its strings exactly unless bytes come before any string |
| ColumnBuffers.TextColumnBuffer.At | src/storage/column_buffer.cpp:58-64 | reads string `index` if it is empty or within the 32-bit layout, and never reads outside the blob |
| ColumnBuffers.MakeColumnBuffer | src/storage/column_buffer.cpp:78-88 | an empty buffer of the column's type |
| ColumnBatches.TextOffsetsAreMonotonic | src/storage/column_batch.cpp:7-15 | comparing neighbours decides whether the offsets never decrease between any two positions |
| ColumnBatches.ValidateTextColumn | src/storage/column_batch.cpp:45-60 | accepts exactly row count + 1 offsets that start at 0, never decrease and end within the blob; which offsets and bytes those are, `BatchEncodings.OffsetsDecode` and `OffsetsEncode` say without this condition |
| ColumnBatches.ValidateColumnBatch | src/storage/column_batch.cpp:19-69 | accepts exactly the batches whose every column is valid for its type; by `BatchEncodings.AcceptedIff` these are the encodings of rows, with anything behind them |
| ColumnBatches.BatchRowsValid | src/storage/column_batch.cpp:19-69 | the decoded rows of an accepted batch satisfy the schema |
| ColumnBatches.RebaseOffsets | src/storage/table_storage.cpp:29-36 | the array of offsets is filled with the true differences: the unsigned subtraction never wraps |
| ColumnBatches.SliceView | src/storage/table_storage.cpp:19-42 | a slice of a column is valid, its offsets end exactly at its blob's end, and its cells are the cells start..start+count |
| ColumnBatches.MakeBatchSlice | src/storage/table_storage.cpp:12-45 | the slice passes validation, has no trailing bytes, and decodes to rows start..start+count |
| RowGroups.ReadRowsExact | src/storage/row_group.cpp:119-139 | a group whose strings are empty or within the 32-bit layout is read back exactly as it was appended |
| RowGroups.ReadRowsExactIff | src/storage/row_group.cpp:119-139 | a group is read back, for all text of the same lengths, exactly under that condition |
| RowGroups.AbsorbedRowsIffTight | src/storage/row_group.cpp:100-114 | a group stores the decoded rows of a batch exactly if no text blob has bytes after its last offset |
| RowGroups.RowGroup.constructor | src/storage/row_group.cpp:9-22 | an empty group with one buffer of the right type per column |
| RowGroups.RowGroup.RowCount | src/storage/row_group.cpp:24-30 | the size of the first column is the number of rows of the group |
| RowGroups.RowGroup.AppendRow | src/storage/row_group.cpp:64-74 | succeeds exactly if the group is not full and the row satisfies the schema; then every column grows by its cell, else nothing changes |
| RowGroups.EmptyBatchKeepsRowsIff | src/storage/column_buffer.cpp:48-55 | an empty batch changes nothing in a group with rows exactly if all its text blobs are empty |
| RowGroups.RowGroup.AppendColumnBatch | src/storage/row_group.cpp:86-117 | succeeds exactly if the group is not full, the batch is valid and fits; then the absorbed rows are added, or the last row lengthened by a batch without rows, else nothing changes; the group stays one of its rows exactly unless an empty batch brings bytes to an empty group |
| RowGroups.RowGroup.ValueAt | src/storage/row_group.cpp:119-128 | the cell as the column's buffer reads it |
| RowGroups.RowGroup.MaterializeRow | src/storage/row_group.cpp:130-139 | all cells of one row, in column order |
| Schema.ValidateValues | src/storage/row.cpp:20-37 | accepts exactly the rows of the right width whose tags are the column types and whose payloads match their tags |
| TableLayout.SealKeepsRows | src/storage/table_storage.cpp:63-70 | sealing keeps the rows and the layout invariant, and leaves room in the active group |
| TableLayout.AddRowRows | src/storage/table_storage.cpp:72-78 | one row, sealed lazily, is added at the end if valid; a rejected row changes no rows |
| TableLayout.AddRowsRows | src/storage/table_storage.cpp:106-114 | a list adds exactly its longest valid prefix, whatever sealing happens on the way |
| TableLayout.AddSliceRows | src/storage/table_storage.cpp:85-98 | one turn of the batch loop adds its slice and never leaves a full active group |
| TableLayout.AddSlicesRows | src/storage/table_storage.cpp:80-102 | a batch adds all its rows, across however many group boundaries, and keeps the layout invariant |
| TableLayout.RowAddress | src/storage/table_storage.cpp:63-102 | row k is in group k / capacity at index k % capacity, under any mix of lazy and eager sealing |
| TableLayout.EagerSealCount | src/storage/table_storage.cpp:63-102 | without a full active group the number of sealed groups is the row count divided by the capacity |
| TableLayout.LayoutsAgree | src/storage/table_storage.cpp:63-102 | tables with the same rows have the same groups up to sealing one full active group; their seal counts differ exactly if one active group is full and the other is not, by one, at a positive multiple of the capacity |
| TableLayout.RunRows | src/storage/table_storage.cpp:104-122 | after any history of the three appends a table holds the rows the history added, in order |
| TableLayout.PathIndependence | src/storage/table_storage.cpp:104-122 | two histories that add the same rows give the same rows and the same groups up to one seal |
| TableLayout.LastOperationSeals | src/storage/table_storage.cpp:63-122 | the last operation decides how many groups are sealed: after a single row or an accepted list as many as the rows before the last one fill, after a rejected row or a batch as many as all rows fill |
| TableLayout.ReadLayoutScan | src/storage/table_storage.hpp:28-45 | reading group after group is a function of the rows alone, however they were cut into groups |
| TableLayout.ScanExact | src/storage/table_storage.hpp:28-45 | while every string is empty or within the 32-bit layout, a scan returns the rows that were added |
| TableLayout.ScanExactIff | src/storage/table_storage.hpp:28-45 | a scan returns the rows that were added, for all text of the same lengths, exactly if in every run of capacity rows every string is empty or within the 32-bit layout |
| TableLayout.WrappedScanIsWrong | src/storage/table_storage.hpp:28-45 | a counterexample without that condition: a valid row with one cell of 2^32 bytes is scanned as a row with an empty cell |
| TableLayout.SmallRunsReadable | src/storage/column_buffer.cpp:37-64 | the condition holds if in every run each text column has fewer than 2^32 bytes |
| TableLayout.RowsReadablePrefix | src/storage/table_storage.hpp:28-45 | a table that reads back exactly did so before its last rows were added |
| BatchEncodings.OffsetsDecode | src/storage/column_batch.cpp:45-60 | strings laid end to end with their running offsets, empty strings included and any bytes behind them, are accepted and read as those strings |
| BatchEncodings.OffsetsEncode | src/storage/column_batch.cpp:45-60 | only such offsets and bytes are accepted |
| BatchEncodings.EncodedMeans | src/storage/column_batch.cpp:19-69 | the encoding of any valid rows with fewer than 2^32 bytes in each text column, with anything behind its blobs and spans, is accepted and decodes to those rows |
| BatchEncodings.AcceptedIff | src/storage/column_batch.cpp:19-69 | a batch is accepted exactly if it is the encoding of some such rows, with anything behind its blobs and spans |
| BatchEncodings.LongerMeansTheSame | src/storage/table_storage.cpp:12-45 | more bytes or integers behind the columns of an accepted batch leave it accepted, with the same rows, and do the same to every table |
| BatchEncodings.EncodedIsAdded | src/storage/table_storage.cpp:80-122 | appending the encoding of rows, with anything behind it, adds exactly those rows to any table |
| BatchEncodings.TrailingBytes | src/storage/column_batch.cpp:45-60 | one string with more bytes behind it in the blob is accepted, and means the string without them |
| TableStorages.TableStorage.RowCount | src/storage/table_storage.cpp:54-61 | the sum over the groups is the number of rows of the table |
| TableStorages.TableStorage.SealActiveIfFull | src/storage/table_storage.cpp:63-70 | a full active group becomes the last sealed group, and a new empty one takes its place |
| TableStorages.TableStorage.AppendToActive | src/storage/table_storage.cpp:72-78 | refines the lazy policy, sealing before the row is validated |
| TableStorages.TableStorage.AppendBatchToActive | src/storage/table_storage.cpp:80-102 | the loop over slices refines the eager policy and never fails half-way |
| TableStorages.TableStorage.AppendRow | src/storage/table_storage.cpp:104-104 | the rows become the old ones and the new one if it is valid, and stay as they were if not |
| TableStorages.TableStorage.AppendRows | src/storage/table_storage.cpp:106-114 | adds the longest valid prefix and succeeds exactly if that is the whole list |
| TableStorages.TableStorage.AppendColumnBatch | src/storage/table_storage.cpp:116-122 | succeeds exactly if the batch is valid; then the rows are the old ones followed by the decoded rows, else nothing at all changes; `BatchEncodings` says which batches are valid and what they decode to |
| TableStorages.TableStorage.ForEachRow | src/storage/table_storage.hpp:28-45 | the rows handed out are the scan of the table's rows, in order |
| TableStorages.TableStorage.ScanProjected | src/storage/table_storage.hpp:47-77 | emits as many rows as the full scan; value i of row k is the value that row k of the scan has at ordinal i of the list; with an ordinal out of range it fails having emitted nothing |
| TableStorages.Replay | src/storage/table_storage.hpp:16-26 | the object refines the layout functions over every history of appends |
| Tokens.NextLexed | src/frontend/lexer.cpp:296-319 | a token lies ahead of the position, is not empty, and is the end of the input exactly at the end of the input |
| LexerTheorems.LineCountsNewlines | src/frontend/lexer.cpp:139-153 | the line of a position is one more than the newlines before it |
| LexerTheorems.ColumnCountsFromNewline | src/frontend/lexer.cpp:139-153 | the column of a position is its distance from the start of its line, plus one |
| LexerTheorems.RunIsMaximal | src/frontend/lexer.cpp:216-235 | names and numbers are scanned to their full length |
| LexerTheorems.SkippedIsGap | src/frontend/lexer.cpp:184-204 | what is skipped consists of white space and comments only |
| LexerTheorems.SkipIsMaximal | src/frontend/lexer.cpp:190-204 | skipping stops only where neither white space nor a comment starts |
| LexerTheorems.LexingTiles | src/frontend/lexer.cpp:296-319 | every input is cut into gaps and tokens without overlap or hole, in at most one call more than its length |
| LexerTheorems.TilesRebuild | src/frontend/lexer.cpp:296-319 | gaps and lexemes, one after the other, rebuild the input exactly |
| LexerTheorems.AllTokensLexed | src/frontend/lexer.cpp:164-170 | every token of the list has the lexeme and the location of its tile |
| LexerTheorems.LexedStep | src/frontend/lexer.cpp:296-319 | each call starts where the one before ended, and only the last one returns the end of the input |
| LexerTheorems.Tokenize | src/frontend/lexer.cpp:296-319 | calling `next` until the end of the input terminates and returns the list of all tokens |
| Lexers.EqualsIgnoreCase | src/frontend/lexer.cpp:26-40 | decides equality up to the case of the letters a to z |
| Lexers.ClassifyKeyword | src/frontend/lexer.cpp:206-214 | finds the kind of the keyword that equals the text up to case; `Spellings.WordLexeme` and `NameIff` say which texts these are, word by word |
| Lexers.Lexer.Advance | src/frontend/lexer.cpp:139-153 | keeps line and column equal to those computed from the position |
| Lexers.Lexer.SkipWhitespaceAndComments | src/frontend/lexer.cpp:190-204 | advances to the end of the gap |
| Lexers.Lexer.ScanString | src/frontend/lexer.cpp:237-255 | finds the first quote that is not doubled, or an invalid token to the end of the input |
| Lexers.Lexer.Next | src/frontend/lexer.cpp:296-319 | the next token of the input with its lexeme, line and column; `Spellings` says which texts are which tokens |
| Rendering.SymbolsShift | src/frontend/lexer.cpp:296-319 | what is lexed from a position does not depend on what lies before it |
| Rendering.ScanExtend | src/frontend/lexer.cpp:216-294 | a lexeme followed by a character that cannot extend it is scanned as the same token |
| Rendering.RenderLexes | src/frontend/lexer.cpp:139-319 | symbols spelled in any way and separated by any admissible gaps are lexed back as those symbols |
| Rendering.QuoteLexes | src/frontend/lexer.cpp:237-255 | quoting any string, before anything but a quote, is one string token that covers it and decodes to the string |
| Rendering.LexedLiteral | src/frontend/lexer.cpp:237-255 | quoting the value of any string token gives its lexeme back |
| Spellings.CaseIff | src/frontend/lexer.cpp:26-40 | equality up to case is equality of every character or of the two cases of one letter |
| Spellings.WordLexeme | src/frontend/lexer.cpp:206-227 | each of the 18 words, written out, with every letter in either case, is a token of its kind |
| Spellings.NameIff | src/frontend/lexer.cpp:216-227 | a text is a name exactly if it is a letter or underscore, then letters, digits and underscores, and none of the 18 words up to case |
| Spellings.LongestMark | src/frontend/lexer.cpp:257-294 | of the 13 marks, written out, the longest one a text begins with is its first token, with its kind and length |
| Spellings.StrayCharacter | src/frontend/lexer.cpp:286-293 | a character that begins neither word, number, string nor mark is an invalid token by itself |
| Spellings.NumberIff | src/frontend/lexer.cpp:229-235 | a text is an integer token exactly if it is one or more decimal digits |
| Spellings.StringToken | src/frontend/lexer.cpp:237-255 | a quote, text with every quote doubled, and a quote that is not doubled are one string token, whatever follows |
| Spellings.UnterminatedString | src/frontend/lexer.cpp:237-255 | a quote without such an end makes the rest of the input an invalid token |
| Spellings.GapStartsIff | src/frontend/lexer.cpp:172-204 | something is skipped exactly if the text begins with a blank, tab, line feed, carriage return or two dashes |
| Spellings.LexemeBefore | src/frontend/lexer.cpp:216-294 | a lexeme before anything that cannot run on with it is a token of its kind and length |
| Values.DecodeStringLiteral | src/catalog/value.cpp:10-30 | the decoding loop computes the recursive decoding |
| Values.DecodeQuote | src/catalog/value.cpp:10-30 | decoding undoes quoting, for every string |
| Values.QuoteDecode | src/catalog/value.cpp:10-30 | quoting undoes decoding, for every well-formed literal |
| Numbers.DecimalRoundTrip | src/frontend/parser.cpp:489-507 | reading the decimal digits of a number gives the number |
| Numbers.IntegerText | src/frontend/parser.cpp:489-507 | decimal digits after any zeros are read as the number below 2^63, and rejected from there on |
| Numbers.DigitsAreDecimal | src/frontend/parser.cpp:489-507 | every string of digits is the decimal form of its value after some zeros, so nothing else is ever read |
| Parsers.Parser.Advance | src/frontend/parser.cpp:26-28 | drops the first remaining symbol, and keeps the current token one of the tokens of the input |
| Parsers.Parser.ParseOrExpression | src/frontend/parser.cpp:362-379 | the loop computes the recursive reading of a disjunction, built to the left |
| Parsers.Parser.ParseAndExpression | src/frontend/parser.cpp:381-398 | the loop computes the recursive reading of a conjunction, built to the left |
| Parsers.Parser.ParseComparisonExpression | src/frontend/parser.cpp:400-422 | at most one operator between primaries |
| Parsers.Parser.ParsePrimaryExpression | src/frontend/parser.cpp:424-451 | a name, a literal or a parenthesised expression; the mutual recursion terminates on (remaining symbols, level) |
| Parsers.Parser.ParseIntegerLiteral | src/frontend/parser.cpp:489-507 | digits of 2^63 or more are rejected without being consumed |
| Parsers.Parser.ParseTable | src/frontend/parser.cpp:323-344 | a name, or two names around a dot |
| Parsers.Parser.FinishStatement | src/frontend/parser.cpp:81-99 | one optional semicolon and then the end of the input |
| Parsers.Parser.ParseSelectStatement | src/frontend/parser.cpp:101-152 | agrees with the recursive reading of SELECT |
| Parsers.Parser.ParseCreateTableStatement | src/frontend/parser.cpp:212-270 | agrees with the recursive reading of CREATE TABLE |
| Parsers.Parser.ParseInsertStatement | src/frontend/parser.cpp:272-321 | agrees with the recursive reading of INSERT |
| Parsers.Parser.ParseOneStatement | src/frontend/parser.cpp:65-79 | the statement and the rest of the recursive reading, or the place where it stops |
| Parsers.Parser.ErrorLocation | src/frontend/parser.cpp:43-49 | an error carries the line and column of the first token that was not consumed |
| Grammar.OrSound | src/frontend/parser.cpp:358-451 | whenever an expression is read, the symbols consumed derive the returned tree in the grammar or / and / comparison / primary |
| Grammar.OrComplete | src/frontend/parser.cpp:358-451 | every sentence of the grammar, before a symbol that ends an expression, is read as its own tree |
| Grammar.PrimaryComplete | src/frontend/parser.cpp:424-451 | a primary is read as its own tree whatever follows |
| Grammar.Unambiguous | src/frontend/parser.cpp:358-451 | derivations with the same sentence have the same tree |
| StatementGrammar.StatementSound | src/frontend/parser.cpp:65-321 | the symbols of a statement that is read are a sentence of the statement grammar for that statement, all of them |
| StatementGrammar.StatementComplete | src/frontend/parser.cpp:65-321 | every sentence of the statement grammar is read as its own statement, with nothing left |
| StatementGrammar.ListCollects | src/frontend/parser.cpp:111-125 | a comma-separated list of readable items is read in order, for columns, definitions and values alike |
| Printing.PrintOrTree | src/frontend/parser.cpp:358-451 | the printed derivation of an expression is well-formed and has that expression as its tree |
| Printing.OrMinimal | src/frontend/parser.cpp:358-451 | no derivation of the same expression has fewer parentheses than the printed one |
| Printing.PrintedParses | src/frontend/parser.cpp:65-321 | reading the printed symbols of a statement gives the statement back, with or without the semicolon |
| Printing.TextRoundTrip | src/frontend/parser.cpp:65-321 | print, lex, parse is the identity for every spelling and spacing of the printed symbols |
| CanonicalText.TextParses | src/frontend/parser.cpp:65-321 | every writable statement has a text, written out word by word, and lexing and parsing it gives the statement back |
| ParsedStatements.ParsedStatementPrints | src/frontend/parser.cpp:65-321 | whatever text is read as a statement, that statement is writable, its own text is read as the same statement, and the whole input was read |
| Lookahead.StatementLocal | src/frontend/parser.cpp:65-321 | what is read of a statement, or where reading stops, depends only on the symbols consumed and on the next one |
| SyntaxErrors.StatementBegins | src/frontend/parser.cpp:65-321 | the symbols before an error begin some sentence of the grammar |
| SyntaxErrors.NoSentenceGoesOn | src/frontend/parser.cpp:65-321 | no sentence of the grammar begins with these symbols and the one at which the error is reported |
| SyntaxErrors.ErrorIsEarliest | src/frontend/parser.cpp:65-321 | the symbols consumed before an error are the longest front of the input that begins a sentence |
| SyntaxErrors.ReadIffSentence | src/frontend/parser.cpp:65-321 | exactly the sentences of the grammar are read |
| Schema.FindColumn | src/catalog/schema.cpp:5-13 | the first column of that name, or none if no column has it |
| Schema.TableSchemaFromAst | src/catalog/schema.cpp:23-33 | the columns in order, each with its position as its ordinal |
| Schema.HasDuplicateColumns | src/catalog/schema_catalog.cpp:9-19 | decides whether two columns have the same name |
| PredicateMeaning.AcceptedIffWellTyped | src/catalog/bound_expr.cpp:65-223 | binding and validation accept exactly the well-typed predicates, never abort, and leave only ordinals in range |
| PredicateMeaning.OperandEvaluates | src/catalog/bound_expr.cpp:225-242 | a bound operand evaluates to the value its expression has by name, of the type it was given |
| PredicateMeaning.EvaluateMeaning | src/catalog/bound_expr.cpp:289-335 | on every valid row an accepted predicate evaluates, without error or wrong-payload access, to its meaning by column name |
| PredicateMeaning.CompareMeaning | src/catalog/bound_expr.cpp:244-271 | comparing two values of one type is comparing their payloads |
| PredicateMeaning.UncheckedAbortsIff | src/catalog/bound_expr.cpp:49-63 | without the type check, comparing two operands would abort exactly if two texts are ordered, and be false for operands of different types; no such comparison passes the check |
| PredicateMeaning.FoundByName | src/catalog/schema.cpp:5-21 | with distinct names, the value at the ordinal found for a name is the value of that name |
| RunTheorems.StatementKeepsWorld | src/execution/executor.cpp:12-78 | every statement keeps all schemas well-formed, all rows valid and the current database in existence |
| RunTheorems.FailureChangesNothing | src/execution/executor.cpp:12-154 | a statement that does not succeed, and any SELECT, leaves everything as it was |
| RunTheorems.StatementRows | src/execution/executor.cpp:29-78 | one statement adds to each table the literal row inserted into it, if any, and keeps its schema |
| RunTheorems.RunRows | src/execution/executor.cpp:12-78 | after any run of statements and connects each table holds its old rows and then the literal rows of the successful INSERTs into it, in order; nothing else contributes, and no table is lost or gets another schema |
| RunTheorems.CreateTableSucceedsIff | src/execution/executor.cpp:29-39 | a CREATE TABLE succeeds exactly if its schema exists, its table does not, and its columns are present with different names; then the table exists without rows, and column i has the name and type of definition i and the ordinal i |
| RunTheorems.TablesAppear | src/execution/executor.cpp:12-27 | a table appears only by its own successful CREATE TABLE, and never disappears |
| SelectMeaning.SelectReturnsMeaning | src/execution/executor.cpp:80-154 | a bound SELECT succeeds on any rows of its schema and returns the satisfying rows, projected by name, in order, under the matching names |
| SelectMeaning.SelectScans | src/execution/executor.cpp:80-154 | a SELECT that binds filters and projects a scan of its table, whatever the text |
| SelectMeaning.SelectExact | src/execution/executor.cpp:80-154 | while every string is empty or within the 32-bit layout, SELECT filters and projects exactly the rows of the table |
| SelectMeaning.SelectSucceedsIff | src/catalog/binder.cpp:117-175 | a SELECT succeeds exactly if its table exists, its condition is well-typed and every item it asks for is a column of the table |
| SelectMeaning.BindNeverAborts | src/catalog/binder.cpp:18-33 | binding never aborts, for any statement and any catalogs |
| SelectMeaning.BindingIsStable | src/catalog/binder.cpp:77-175 | a SELECT or INSERT that was bound still executes without error after any further run of statements and connects that ends in the same database |
| SelectMeaning.BoundFailsIff | src/catalog/binder.cpp:35-115 | executed right after binding, a statement fails exactly if it is a CREATE TABLE with two columns of one name; none aborts |
| SelectMeaning.InsertSucceedsIff | src/catalog/binder.cpp:77-115 | an INSERT succeeds exactly if its table exists and its values are literals that fit the schema |
| SelectMeaning.ConditionEvaluates | src/execution/executor.cpp:123-133 | the test made on each row is the condition by name, and never fails |
| Effects.UnqualifiedIsPublic | src/catalog/table_reference.hpp:15-21 | INSERT, SELECT and CREATE TABLE on an unqualified table run as the same statement with "public" written out |
| Effects.InsertEffect | src/execution/executor.cpp:64-78 | an INSERT into q.t succeeds exactly if schema q of the current database has table t and there is a literal of the right type for every column; then exactly that table gains exactly one row, of the values the literals denote |
| Effects.SelectEffect | src/execution/executor.cpp:80-154 | a SELECT from q.t succeeds exactly if schema q of the current database has table t and condition and items fit it; it reads that table and changes nothing |
| Effects.CreateTableEffect | src/execution/executor.cpp:29-39 | a CREATE TABLE q.t succeeds exactly if schema q exists without table t and the columns have different names; then exactly that table is added, with those columns and no rows |
| Effects.LiteralsFitIff | src/catalog/binder.cpp:77-115 | values fit a schema exactly if there is one literal per column, of the type of the column |
| Effects.CreateSchemaEffect | src/catalog/database_catalog.cpp:12-23 | CREATE SCHEMA succeeds exactly for a non-empty name that no schema of the current database has; then that schema exists without tables and nothing else changes |
| Effects.CreatedSchemaIsUsable | src/execution/executor.cpp:29-51 | after CREATE SCHEMA a table can be created in that schema |
| Effects.CreateDatabaseEffect | src/engine/cluster.cpp:9-20 | CREATE DATABASE succeeds exactly for a non-empty name that no database has; then exactly that database is added, with the schema "public" and no tables, and connecting to it succeeds |
| Effects.ConnectLine | src/repl/repl.cpp:199-213 | ".connect " and the name of a database makes that database current, and changes nothing if there is none |
| Effects.OtherLines | src/repl/repl.cpp:189-216 | the empty line does nothing, ".help" asks for help, and every line that does not begin with ".connect " besides is processed as SQL |
| SchemaCatalogs.SchemaCatalog.CreateTable | src/catalog/schema_catalog.cpp:53-73 | succeeds exactly for a new name, at least one column and no repeated column name, whatever the ordinals; then an empty table is added, and no other table changes |
| SchemaCatalogs.SchemaCatalog.FindTable | src/catalog/schema_catalog.cpp:75-82 | the schema of the table, if there is one |
| SchemaCatalogs.SchemaCatalog.ValidateInsert | src/catalog/schema_catalog.cpp:88-96 | succeeds exactly if the table exists and the values satisfy its schema |
| SchemaCatalogs.SchemaCatalog.Insert | src/catalog/schema_catalog.cpp:98-109 | adds the row to that table exactly if the table exists and the row is valid; no other table changes |
| SchemaCatalogs.SchemaCatalog.InsertBatch | src/catalog/schema_catalog.cpp:111-128 | adds the longest valid prefix to that table; succeeds exactly if the table exists and that is the whole list |
| SchemaCatalogs.SchemaCatalog.InsertColumnarBatch | src/catalog/schema_catalog.cpp:130-138 | adds all decoded rows to that table or changes nothing |
| SchemaCatalogs.SchemaCatalog.ForEachRow | src/catalog/schema_catalog.hpp:37-45 | the rows handed out are the scan of that table |
| SchemaCatalogs.SchemaCatalog.ScanProjected | src/catalog/schema_catalog.hpp:47-56 | as many rows as the scan of that table, value i of each being its value at ordinal i of the list; or nothing, if there is no such table or an ordinal is out of range |
| Sessions.Session.constructor | src/engine/session.cpp:7-12 | over a new cluster: only the database "main", with only the schema "public" and no tables, and the session connected to it, whatever name was given |
| Sessions.Session.Connect | src/engine/session.cpp:20-27 | changes the current database exactly if the new one exists, and nothing else |
| Sessions.Session.CreateTable | src/catalog/database_catalog.cpp:47-54 | adds an empty table to one schema of the current database, if that schema accepts it |
| Sessions.Session.CreateSchema | src/catalog/database_catalog.cpp:12-23 | adds an empty schema exactly for a new, non-empty name |
| Sessions.Session.CreateDatabase | src/engine/cluster.cpp:9-20 | adds a database with an empty public schema exactly for a new, non-empty name |
| Sessions.Session.Insert | src/catalog/database_catalog.cpp:81-88 | adds the row to one table of the current database, and changes no other table of any database |
| Sessions.Session.ForEachRow | src/catalog/database_catalog.hpp:37-45 | the scan of one table of the current database |
| Binder.LiteralValue | src/catalog/value.cpp:54-64 | the value of a literal, and failure for anything else |
| Binder.BindColumns | src/catalog/binder.cpp:155-168 | the ordinals of all columns, or failure at the first that is not a column of the table |
| Binder.BindInsert | src/catalog/binder.cpp:77-115 | refines binding of INSERT over the model of the catalogs; `Effects.InsertEffect` and `UnqualifiedIsPublic` say which table is meant |
| Binder.BindSelect | src/catalog/binder.cpp:117-175 | refines binding of SELECT over the model of the catalogs; `Effects.SelectEffect` and `UnqualifiedIsPublic` say which table is meant |
| Binder.Bind | src/catalog/binder.cpp:18-33 | refines binding for every statement, and a bound schema has its positions as ordinals |
| Executor.CollectFailure | src/execution/executor.cpp:117-147 | a failure among the first rows of a scan is the outcome of the whole scan |
| Executor.CollectRows | src/execution/executor.cpp:117-147 | the callback with its sticky error collects exactly the matching rows, projected, or the first failure |
| Executor.ExecuteInsert | src/execution/executor.cpp:64-78 | result and catalogs are those of the model |
| Executor.ExecuteSelect | src/execution/executor.cpp:80-154 | the result is that of the model, and nothing changes |
| Executor.Execute | src/execution/executor.cpp:12-27 | result and catalogs are those of the model, for every bound statement; what those are, `Effects` says for each kind |
| Engine.ProcessSql | src/repl/repl.cpp:132-153 | a text is answered by a located syntax error, changing nothing, or exactly as the model runs the statement it is read as |
| Engine.ProcessLine | src/repl/repl.cpp:189-216 | an empty line does nothing, the help command asks for help, the connect command connects or fails, and any other line is processed as SQL, as the model does |
| Engine.RunScript | src/repl/repl.cpp:189-216 | over a whole sequence of lines the session reaches the model's state and every line gets the model's answer |
| EndToEnd.SelectAfterScript | src/execution/executor.cpp:80-154 | a SELECT that binds after any script returns the satisfying rows, by name and in order, of a scan of the old rows and the literal rows of the successful INSERTs |
| EndToEnd.SelectStarScans | src/execution/executor.cpp:80-154 | SELECT * after any script returns a scan of those rows, whatever the text |
| EndToEnd.SelectStarAfterScript | src/execution/executor.cpp:80-154 | that scan is exactly those rows if every string is empty or within the 32-bit layout, in particular if no text column of a run has 2^32 bytes; if not, some rows with text of the same lengths are scanned wrongly |
| EndToEnd.SampleSession | src/execution/executor.cpp:117-147 | the condition and projection of the sample session select one of its two rows |
| EndToEnd.ReadStatementFailsIff | src/catalog/schema_catalog.cpp:53-73 | a text that is read and bound fails exactly if it is a CREATE TABLE with two columns of one name |
| EndToEnd.NoTextAborts | src/repl/repl.cpp:132-153 | no text makes binding or execution abort, in any state; an abort of either would be the answer |
| EndToEnd.CanonicalStep | src/repl/repl.cpp:132-153 | the canonical text of a statement is the same step as the text it was read from |
| EndToEnd.SyntaxErrorLocated | src/frontend/parser.cpp:43-99 | a text gets a syntax error exactly if it is no sentence; the line and column are those of the first token with which the text no longer begins a sentence |

## Left out

- RowGroups.RowGroup.constructor: requires a column, since the row count of a group without columns is always 0; `create_table` rejects such schemas.
- RowGroups.RowGroup.AppendColumnBatch: does not say what a group without rows reads after an empty batch has left bytes in it; tables never pass an empty batch.
- Sessions.Session.CreateTable: requires the ordinals to be the positions, as `table_schema_from_ast` makes them; with others the binder would index past the columns.
- Executor.Execute: the same requirement on a bound CREATE TABLE, which the binder guarantees.
- Engine.RunScript: does not model the exit command, nor how lines that need a continuation are joined before they are processed.
- Callbacks of scans are modelled by the sequence of rows handed to them.
- `RowGroup::append_rows`, the span accessors and `reserve`: they would only add easy members or have no effect on the rows.
- Move semantics, ownership and lifetimes of spans and string views; a moved-from row is not modelled.
- Debug assertions, except on payload accesses: without them an invalid row is an error of the table, and an empty batch is not refused.
- Default-constructed groups and tables, and schemas without columns: `create_table` rejects the latter.
- Sizes are natural numbers; wrap-around of `size_t`, as in a batch that claims 2^64 - 1 rows, is not modelled.
- Error messages and `token_kind_name`.
- Characters are bytes with the C locale's classes; `std::from_chars` is given by its decimal value and range check.
- `Cluster`, `DatabaseCatalog` and `DatabaseEngine` as objects: they forward to schemas, and are the nested maps of `Session`.
- Insertion of lists and columnar batches through the session: SQL has no statement for them, and `SchemaCatalog` has both.
- The interactive shell: prompts, result formatting, the text of the help message.
- Write-ahead log, multi-version concurrency, indexes, zone maps and query routing: described in DESIGN.md and not implemented.
