# CSV pipeline: lexer, parser and type validator

This project models the single-pass CSV pipeline of the `csv_parsing` repository in Dafny and
proves properties of it. The pipeline has three stages:

- **Lexer** (`CsvLexer`). It turns input lines into positioned tokens: COMMA, NEWLINE, VALUE and
  END_OF_FILE.
- **Parser** (`CsvParser`). It reads the header from line 1, then turns each later line into a
  row of typed values. It detects empty values and lines with too many commas. In ERROR mode it
  raises the first error. In WARNING mode it logs the error and skips to the next NEWLINE. As
  written, building the error crashes instead; see "## Findings".
- **Validator** (`CsvTypeValidator`). It passes on only the rows whose every value matches the
  pattern registered for its column type. As written, a failing value crashes it; see
  "## Findings".

The dialect is simplified and is not RFC 4180. Quotes only toggle a span. There is no `""`
escape.

## Layout

| file | module | models |
|---|---|---|
| `wrappers.dfy` | `Wrappers` | `Option` for Python's `None`, `Result` for a raised exception |
| `tokens.dfy` | `Tokens` | `CsvTokenType`, `CsvToken`, `CsvValueToken` |
| `errors.dfy` | `Errors` | the error kinds with their positions, and the bad-line mode |
| `header.dfy` | `Header` | `CsvHeader` |
| `value.dfy`, `row.dfy` | `Values`, `Rows` | `CsvValue`, `CsvRow` |
| `utils.dfy` | `Utils` | `row_to_dict` |
| `lexer_spec.dfy` | `LexerSpec` | the lexer as functions: the value scan, one step, the token stream |
| `lexer.dfy` | `Lexer` | the `CsvLexer` class, whose methods are proved against `LexerSpec` |
| `lexer_properties.dfy` | `LexerProperties` | what the lexer promises, proved on `LexerSpec` |
| `parser_spec.dfy` | `ParserSpec` | the parser as functions on its state: helpers, one loop pass, the whole run |
| `parser.dfy` | `Parser` | the `CsvParser` class, whose methods are proved against `ParserSpec` |
| `parser_properties.dfy` | `ParserProperties` | what the parser promises, proved on `ParserSpec` |
| `validator_spec.dfy` | `ValidatorSpec` | the validator's decisions as functions |
| `validator.dfy` | `Validator` | the `CsvTypeValidator` class, proved against `ValidatorSpec` |
| `parser_as_written.dfy` | `ParserAsWritten` | `parse` as the code stands, where building a parser error crashes |
| `validator_as_written.dfy` | `ValidatorAsWritten` | `validate` as the code stands, where building a validator error crashes |

The lexer, parser and validator change state step by step. Each is a class whose fields are the
Python object's fields. Each method's `ensures` ties the new state to a specification function of
the old state. The properties are proved as lemmas about those functions.

Python generators become finite results:

- `lex` returns the tokens up to the first END_OF_FILE, plus the lexer error if one was raised.
- `parse` returns the rows it yields and an `Outcome`: `Completed`, `Raised(error)`, or
  `ReadPastEnd`. `ReadPastEnd` means it asked for a token after that END_OF_FILE.
- `validate` returns the rows it yields and the error it raised, if any.

The errors handled by `_handle_error` are kept in a ghost `log`. That is what WARNING mode prints.

## Model

| member | source | states |
|---|---|---|
| `Tokens.Token.Type` | src/lexing/token.py:4-24 | A token's kind is exactly one of COMMA, NEWLINE, VALUE, END_OF_FILE. It is VALUE exactly for a `CsvValueToken`, and a plain token reports the kind it was built with. |
| `Tokens.TokensKeepFields` | src/lexing/token.py:11-24 | A token keeps the kind, line and column it was given. A value token also keeps its text unchanged and always has kind VALUE. |
| `Header.CsvHeader.LookupColumnType` | src/parsing/csv_header.py:5-6 | The lookup succeeds exactly for an index below the column count, and then gives that declaration. Past the count it fails, standing for `IndexError`. |
| `Header.LookupWithinCount` | src/parsing/csv_header.py:1-9 | The column count equals the number of declarations. The i-th lookup gives the i-th declaration when i < count and fails when i >= count. |
| `Values.GettersReturnConstruction` | src/value.py:4-16 | `get_column_type`, `get_value` and `debug_get_token` give back the column type, the token's text and the exact token the value was built from. |
| `Rows.AllValuesInOrder` | src/row.py:8-9 | `get_all_values` gives back the row's values in construction order. |
| `Rows.CsvRow.GetValue` | src/row.py:11-15 | The result is None exactly when no value has the column type. Otherwise it is an element of the row with that type, and no earlier value has that type. |
| `Utils.RowToDict` | src/utils.py:4-8 | The keys are exactly the column types in the row. Each key maps to the text of the last value of that type. |
| `Utils.LastTextOfExists` | src/utils.py:5-7 | A column type has a surviving text exactly when it occurs in the row. |
| `Utils.LastTextOfIsLastWrite` | src/utils.py:6-7 | The surviving text belongs to a value of that type that no later value of that type follows. |
| `Utils.ColumnTypesBound` | src/utils.py:6-7 | A row has no more distinct column types than values. |
| `Utils.RowToDictProperties` | src/utils.py:4-8 | The map has at most one key per value. An empty row gives an empty map. Each key's text comes from the last value of its type. |
| `LexerSpec.ScanFrom` | lexing/lexer.py:36-66 | A scan from index i ends within the line, after i unless it starts on a terminator. Its only failures are lexer errors. |
| `LexerSpec.NextLine` | lexing/lexer.py:19-27 | Advancing a line sets the index to 0 and adds one to the line number, whether a line was read or the input ran out. |
| `LexerSpec.LexStep` | lexing/lexer.py:68-86 | A step that yields a token other than END_OF_FILE moves the lexer strictly forward: fewer lines left, or stopped, or fewer characters left on the line. |
| `Lexer.CsvLexer.constructor` | lexing/lexer.py:8-17 | A new lexer is at line 0 and index 0 on an empty line, not stopped, with every input line still to read. |
| `Lexer.CsvLexer.AdvanceLine` | lexing/lexer.py:19-27 | `_advance_line` loads the next line, or sets `stop_requested` when there is none. Either way it adds one to the line number and resets the index to 0. |
| `Lexer.CsvLexer.AdvanceChar` | lexing/lexer.py:29-30 | `_advance_char` moves the index by one and changes nothing else. It is only called on a character inside the line. |
| `Lexer.CsvLexer.GetCurrentChar` | lexing/lexer.py:32-34 | The result is the character at the index when the index is inside the line, and None at the end of the line. |
| `Lexer.CsvLexer.CreateValueToken` | lexing/lexer.py:36-66 | The token's text, the index after it and any error are exactly those of `ScanFrom`. The token carries the current line and the 1-based start column. |
| `Lexer.CsvLexer.Lex` | lexing/lexer.py:68-86 | After priming the first line, the tokens and any lexer error are exactly `LexFrom`'s, up to the first END_OF_FILE. |
| `LexerProperties.ScannedTextIsUnquotedStretch` | lexing/lexer.py:40-64 | A scanned value is the scanned stretch of the line with its quote characters removed. Everything else, commas inside quotes included, is kept verbatim and in order. |
| `LexerProperties.ScannedTextHasNoQuote` | lexing/lexer.py:42-48 | A scanned value never contains a quote character. |
| `LexerProperties.UnquotedValue` | lexing/lexer.py:51-61 | An unquoted value stops before `,`, `\n` or the end of the line without consuming it. |
| `LexerProperties.QuotedValue` | lexing/lexer.py:42-48 | A quoted value holds what lies between its quotes, commas included. The closing quote ends the token, just after that quote. |
| `LexerProperties.QuotedValueReachingNewline` | lexing/lexer.py:51-57 | A quoted span that reaches `\n` is an unterminated-string error at the 0-based start index when multi-line strings are off. When they are on, the value ends before the `\n`, with no error. |
| `LexerProperties.LexFromWellFormed` | lexing/lexer.py:68-86 | END_OF_FILE comes only as the last token. A stream without a lexer error ends with it, and a stream with one has none. |
| `LexerProperties.LexFromValuesUnquoted` | lexing/lexer.py:42-64 | No VALUE token of the stream holds a quote character. |
| `LexerProperties.LexFromLineNumbers` | lexing/lexer.py:19-27 | Each token's line number counts one more per NEWLINE up to and including itself. So a NEWLINE reports the number of the line it moves to. |
| `LexerProperties.StepPointsAt` | lexing/lexer.py:74-86 | The token of one lexer step points at its source: a COMMA at its `,`, a VALUE at its first character with the unquoted stretch as its text, a NEWLINE at column 0 of the next line. The next state still follows the input. |
| `LexerProperties.LexFromPointsAt` | lexing/lexer.py:66-84 | Every token points at its source. A COMMA's 1-based column holds a `,`. A VALUE's 1-based start column holds neither `,` nor `\n`. Its text is the stretch of the line from that column on, with the quotes removed. A NEWLINE reports column 0 on the next line. An END_OF_FILE sits at the end of a line. |
| `LexerProperties.LexProperties` | lexing/lexer.py:68-86 | The stream over any input has all four properties: it is well formed, its values hold no quotes, its lines are counted, and its positions are true. |
| `LexerProperties.LineWithoutNewlineEndsStream` | lexing/lexer.py:82-84 | A line with no `\n` ahead of the cursor ends the stream on that line, with END_OF_FILE at the end of the line. No later line is read. |
| `ParserSpec.Advance` | src/parsing/parser.py:84-86 | The current token becomes the previous one and the next token is pulled. Priming the pump leaves no previous token, because the current token starts as `None`. Past the end of the stream, the run stops with the lexer's error, if there was one. |
| `ParserSpec.AdvanceLine` | src/parsing/parser.py:88-90 | `_advance_line` advances like `_advance` and changes no error flag, column index or log. |
| `ParserSpec.HandleError` | src/parsing/parser.py:92-102 | The error state and `had_error` are set and the error is logged. The run stops, raising that error, exactly in ERROR mode. |
| `ParserSpec.SkipToNextLine` | src/parsing/parser.py:127-133 | Recovery that succeeds moves forward and leaves the error state. If it cannot go on, it stops at the end of the stream. |
| `ParserSpec.RecoverFromError` | src/parsing/parser.py:123-133 | `_recover_from_error` resets the column index to 0, leaves the error state and keeps the error log. |
| `ParserSpec.HeaderFrom` | src/parsing/parser.py:56-76 | The header loop changes no error flag, column index or log. A header that fails ran off the end of the stream. |
| `ParserSpec.Iterate` | src/parsing/parser.py:145-194 | A pass of `parse` that does not stop moves forward in the stream and keeps the parser invariant. A pass that completes stops at END_OF_FILE. |
| `Parser.CsvParser.constructor` | src/parsing/parser.py:15-36 | Priming makes the first token current, with no previous token. After that, the parser's state and header are those of `HeaderFrom` when the header is parsed. When the stream fails first, the failure is recorded. No error has been handled yet. |
| `Parser.CsvParser.FromHeader` | src/parsing/parser.py:38-54 | `from_header` gives a fresh parser with the given header that has only primed the first token, with no previous token. It does not parse a header line. |
| `Parser.CsvParser.ParseHeader` | src/parsing/parser.py:56-76 | The header and the state after it are exactly `HeaderFrom`'s. |
| `Parser.CsvParser.Advance` | src/parsing/parser.py:84-86 | The new state is exactly `ParserSpec.Advance` of the old one. |
| `Parser.CsvParser.AdvanceLine` | src/parsing/parser.py:88-90 | The new state is exactly `ParserSpec.AdvanceLine` of the old one. |
| `Parser.CsvParser.HandleError` | src/parsing/parser.py:92-102 | The new state is exactly `ParserSpec.HandleError` of the old one. |
| `Parser.CsvParser.AssertPreviousValue` | src/parsing/parser.py:104-114 | A separator right after a separator is handled as an "Empty value!" error at the current token. |
| `Parser.CsvParser.AssertColumnIndex` | src/parsing/parser.py:116-121 | A column index at or past the header's width is handled as "Too many commas in row!" at the current token. |
| `Parser.CsvParser.RecoverFromError` | src/parsing/parser.py:123-133 | The new state is exactly `ParserSpec.RecoverFromError` of the old one. |
| `Parser.CsvParser.HadErrors` | src/parsing/parser.py:135-136 | `had_errors` is true exactly when some error has been handled. |
| `Parser.CsvParser.ParsePass` | src/parsing/parser.py:145-194 | One pass of the `parse` loop leaves the state, row values, yielded rows and stop exactly as `Iterate` says. |
| `Parser.CsvParser.Parse` | src/parsing/parser.py:138-194 | The rows, the outcome and the final state are exactly `ParseFrom`'s. `had_errors` still reports whether any error was handled. |
| `ParserProperties.ParseErrors` | src/parsing/parser.py:92-102 | Over a run, the error log only grows and holds only parser errors, and `had_error` reports whether it grew. In WARNING mode only the end of the stream or a lexer error stops the run. In ERROR mode at most one error is handled, and it is the one raised. |
| `ParserProperties.ParseOutcome` | src/parsing/parser.py:92-97 | In ERROR mode a run completes exactly when no error was handled and the lexer did not fail. A raised error is a parser error exactly when it was handled. Lexer errors escape in both modes. |
| `ParserProperties.ParseCompletesAtEnd` | src/parsing/parser.py:189-194 | A run that completes stopped at END_OF_FILE, which only a stream without a lexer error has. |
| `ParserProperties.ParseValuesFromHeader` | src/parsing/parser.py:169-185 | Every yielded value is typed by a header declaration and carries a VALUE token of the stream. |
| `ParserProperties.FieldValuesTyped` | src/parsing/parser.py:169-176 | On a clean line, the k-th value is the k-th VALUE token, typed by the header's k-th declaration. |
| `ParserProperties.CleanLineYieldsRow` | src/parsing/parser.py:145-176 | A line of values separated by single commas, no wider than the header, yields exactly one row, holding `FieldValues` of the line. No error is handled, and the run goes on from the next line at column 0. |
| `ParserProperties.HeaderFromFirstLine` | src/parsing/parser.py:56-76 | The header declarations are the texts of the VALUE tokens before the first NEWLINE, in order. Commas add nothing. Parsing resumes after that NEWLINE, one line further. |
| `ParserProperties.HeaderWithoutNewline` | src/parsing/parser.py:59-74 | With no NEWLINE left in the stream, the header loop runs off the end of the stream. |
| `ParserProperties.ConstructedParserCanParse` | src/parsing/parser.py:15-36 | A constructed parser whose header parsed meets what `parse` needs, provided WARNING mode has a non-empty header. |
| `ParserProperties.FromHeaderParserCanParse` | src/parsing/parser.py:38-54 | A parser built by `from_header` meets what `parse` needs, provided its first token is not a COMMA or NEWLINE and WARNING mode has a non-empty header. It has no previous token and no handled error. |
| `ParserProperties.PassErrors` | src/parsing/parser.py:104-121 | The errors of one pass are all parser errors. ERROR mode handles at most one. |
| `ParserProperties.PassHandlesExactly` | src/parsing/parser.py:104-187 | A pass handles exactly these errors: "Empty value!" at a separator after a separator, "Too many commas in row!" at a comma reaching the header's width, and a failed lookup at a VALUE. ERROR mode raises the first at once and yields nothing. In WARNING mode the parser is then in the error state. |
| `ParserProperties.LookupFailsOnlyWithoutHeader` | src/parsing/parser.py:169-185 | Outside the error state, the column lookup at a VALUE fails exactly when the header is empty. |
| `ParserProperties.ValueTypedByColumn` | src/parsing/parser.py:169-187 | A VALUE is appended as a value typed by `header[column_index]` on its own token, and the next token is pulled. |
| `ParserProperties.EndOfFileFlushes` | src/parsing/parser.py:189-194 | At END_OF_FILE the run completes. It yields the gathered values as one final row exactly when there are any, and then stops. |
| `ParserProperties.WarnNewlineYieldsRow` | src/parsing/parser.py:152-160 | In WARNING mode a NEWLINE yields the line's values even when it closes an empty value, and resets the column index. The parser is then in the error state exactly when the NEWLINE followed a separator, so the next line is skipped. |
| `ParserProperties.RecoverySkipsLine` | src/parsing/parser.py:123-133 | A pass in the error state drops the gathered values and skips every token through the next NEWLINE. It resumes on the next line at column 0, outside the error state. |
| `ParserProperties.WarnCommaErrorSkipsLine` | src/parsing/parser.py:146-167 | In WARNING mode a comma that raises an error drops the whole line: nothing of it is yielded. The run goes on after the line's NEWLINE with an empty accumulator and the errors logged. |
| `ValidatorSpec.CheckValue` | src/validator.py:42-63 | A value fails exactly when it does not pass. An unregistered column type gives "Unknown column type!". Text that does not match gives "Wrong type format!", quoting the text and the pattern. Either error is positioned at the value's token. |
| `ValidatorSpec.FirstFailure` | src/validator.py:72 | `all(...)` fails exactly when some value fails. The error it handles is that of the first failing value, and every earlier value passes. |
| `ValidatorSpec.ValidateRowsShape` | src/validator.py:68-73 | Only ERROR mode raises, and what it raises is the last error handled. Every handled error is a validator error. |
| `Validator.ValidatePassingRow` | src/validator.py:72-73 | A passing row is yielded unchanged, and the run carries on with the next row. |
| `Validator.ValidateDroppedRow` | src/validator.py:68-73 | In WARNING mode a failing row is not yielded. Its first failure is handled, and the run carries on with the next row. |
| `Validator.ValidateRaisingRow` | src/validator.py:33-35 | In ERROR mode a failing row ends the run. Its first failure is both the last handled error and the raised one. |
| `ValidatorSpec.EmptyRowPasses` | src/validator.py:72 | A row with no values always passes, and no error is handled for it. |
| `ValidatorSpec.WarnFiltersRows` | src/validator.py:68-73 | In WARNING mode nothing is raised. The yielded rows are exactly the passing rows, unchanged and in order, and one error is handled per dropped row. |
| `ValidatorSpec.ErrorModeAllPass` | src/validator.py:30-35 | In ERROR mode the run raises nothing exactly when every row passes, and then it yields every row. |
| `ValidatorSpec.ErrorModeStopsAtFirstBadRow` | src/validator.py:68-73 | In ERROR mode a run that raises yields the rows before the first failing row. It handles and raises only that row's first failure. |
| `Validator.CsvTypeValidator.constructor` | src/validator.py:17-28 | A new validator keeps its pattern map and mode, and has handled no error. |
| `Validator.CsvTypeValidator.HandleError` | src/validator.py:30-40 | The error state and `had_error` are set and the error is logged. It is raised exactly in ERROR mode. |
| `Validator.CsvTypeValidator.CheckValue` | src/validator.py:42-63 | The value passes exactly when `Passes` holds, and then nothing changes. Otherwise `ValidatorSpec.CheckValue`'s error is handled, and the error state and `had_error` are set. |
| `Validator.CsvTypeValidator.HadErrors` | src/validator.py:65-66 | `had_errors` is true exactly when some error has been handled. |
| `Validator.CsvTypeValidator.CheckAll` | src/validator.py:72 | Values are checked in order up to the first failure. Only that failure is handled. |
| `Validator.CsvTypeValidator.Validate` | src/validator.py:68-73 | The yielded rows, the raised error and the handled errors are exactly `ValidateRows`'s. `had_error` and the error state become true on the first handled error and never reset. |
| `ParserAsWritten.QuietPassOutOfError` | src/parsing/parser.py:145-194 | A pass that finds no error leaves the log and `had_errors` as they were, and does not enter the error state. |
| `ParserAsWritten.AsWrittenNeverHandles` | src/parsing/parser_error.py:7-9 | As written, `parse` never handles an error. The log and `had_errors` keep their values, and the error state is never entered. |
| `ParserAsWritten.AsWrittenVersusIntended` | src/parsing/parser.py:104-121 | As written, `parse` raises `AttributeError` exactly on the runs where the corrected parser handles an error. Otherwise both runs yield the same rows, end the same way and leave the same state. The rows yielded as written are always a prefix of the corrected ones. |
| `ParserAsWritten.EmptyValueCrashes` | src/parsing/parser.py:162-167 | For the line `1,,2` under the header `a,b` in WARNING mode, the corrected parser logs an empty value and too many commas, skips the line and completes. As written, the code raises at the second comma and yields nothing. |
| `ValidatorAsWritten.AsWrittenYieldsPassingPrefix` | src/validator.py:11-13 | In either mode, `validate` as written yields the longest prefix of passing rows. It raises `TypeError` exactly when some row fails, and then the next row is a failing one. |
| `ValidatorAsWritten.AsWrittenVersusIntended` | src/validator.py:68-73 | As written, `validate` raises `TypeError` exactly on the runs where the corrected validator handles an error. Otherwise the two yield the same rows and raise nothing. In ERROR mode they yield the same rows in every case. |
| `ValidatorAsWritten.WrongFormatRaisesTypeError` | src/validator.py:48-55 | With a digits-only `int` pattern and the rows `x` then `1` in WARNING mode, the corrected validator drops `x` with a wrong-format error and yields `1`. As written, the code yields nothing and raises `TypeError`. |

## Behaviour of the code worth knowing

- **A closing quote ends a VALUE token**, not only the quoted span (lexing/lexer.py:43-45). So
  `"a"b` is two VALUE tokens with no comma between them. Both get the same column type, and a
  row can then be wider than the header.
- **Multi-line strings do not join lines.** The option only suppresses the unterminated-string
  error (lexing/lexer.py:51-57). The value still stops at `\n`, and the NEWLINE token follows.
- **NEWLINE comes only from a `\n` character.** A line with no `\n` ends the stream with
  END_OF_FILE, and later lines are never read (lexing/lexer.py:82-84).
- **Lexer errors are never recovered.** `_advance` does not route them through `_handle_error`,
  so they escape `parse` in both modes (src/parsing/parser.py:84-86).
- **"Could not get column type" needs an empty header.** Otherwise a comma that reaches the
  header's width has already been reported (`ParserProperties.LookupFailsOnlyWithoutHeader`).

## Findings

| source | as written | input that shows it | evidently intended | confidence | as-written member | corrected member |
|---|---|---|---|---|---|---|
| src/parsing/parser_error.py:7-9 | `CsvParserError.__init__` calls `CsvError.__init__` before it sets `self.token`. That constructor calls the overridden `get_printable_message`, which reads `self.token`, so building any parser error raises `AttributeError`. Every `_handle_error(CsvParserError(...))` (src/parsing/parser.py:112-114, 119-121, 178-183) fails before `_handle_error` runs, in both modes. Nothing is ever handled, `had_errors` stays false, and WARNING recovery is never reached. | header `a,b`, line `1,,2` then end of input, WARNING mode: the code raises `AttributeError` at the second comma; the intended parser logs "Empty value!" and "Too many commas in row!", skips the line and completes (`ParserAsWritten.EmptyValueCrashes`) | set `self.token` before calling `super().__init__`, as `CsvLexerError` does (src/lexing/lexer_error.py:6-8) | high; not executed | `ParserAsWritten.ParseAsWritten`, with `ParserAsWritten.EmptyValueCrashes` and `ParserAsWritten.AsWrittenVersusIntended` | `ParserSpec.ParseFrom`, with `ParserProperties.PassHandlesExactly`, `ParserProperties.WarnCommaErrorSkipsLine` and `ParserProperties.ParseErrors` |
| src/validator.py:11-13 | `CsvValidatorError.__init__` passes the message and the token to `CsvError.__init__`, which takes the message alone (error.py:2), so building a validator error raises `TypeError`. Both error sites of `_check_value` (src/validator.py:49-54, 59-63) build one before `_handle_error` runs; `except KeyError` does not catch it. The first failing value ends `validate` in both modes, with nothing handled and `had_error` still false. | type `int` with a digits-only pattern, rows `x` then `1`, WARNING mode: the code raises `TypeError` and yields nothing; the intended validator drops `x` and yields `1` (`ValidatorAsWritten.WrongFormatRaisesTypeError`) | `super().__init__(message)` and keep the token on the error, as `CsvParserError` means to | high; not executed | `ValidatorAsWritten.ValidateAsWritten`, with `ValidatorAsWritten.WrongFormatRaisesTypeError` and `ValidatorAsWritten.AsWrittenVersusIntended` | `ValidatorSpec.ValidateRows`, with `ValidatorSpec.WarnFiltersRows` and `ValidatorSpec.ErrorModeStopsAtFirstBadRow` |

The parser and validator classes, and every property about them, follow the corrected
behaviour. The as-written modules relate the two: the code crashes exactly on the runs in which
the corrected model handles an error, and until then the two agree.

## Left out

- Process-pool fan-out (src/parsing/multiprocess_parser.py). It is concurrency. Its one need,
  a parser built from an existing header, is `Parser.CsvParser.FromHeader`;
  `ParserProperties.FromHeaderParserCanParse` says when such a parser can be parsed.
- src/parsing/base_parser.py. It is an interface with no behaviour.
- The message text of the exception classes (error.py, src/parsing/parser_error.py,
  src/lexing/lexer_error.py) and their `__repr__` methods. An error is modelled as its kind and
  position. The constructors of `CsvParserError` and `CsvValidatorError` crash; that is modelled
  only in the as-written modules (see "## Findings").
- Diagnostic printing and the `print_error_to` sink. This is I/O. The handled errors are kept in
  a ghost log instead.
- The regular-expression engine. A `Pattern` holds its source text and a function
  `matches: string -> bool` that stands for `pattern.match`, which anchors only at the start.
- The input iterator. It is a finite sequence of lines.
- The parser's `_line_num` counter and the header loop's `comma_index`. They are kept up to date,
  but the code never reads them.
- A plain `CsvToken` of kind VALUE. The type cannot express it, and the code never builds one.
- Lexing after the first END_OF_FILE. The token stream stops at the first END_OF_FILE, and a
  parser that asks for more ends with `ReadPastEnd`. This happens in `_parse_header` on a line 1
  without `\n`, and in recovery that finds no NEWLINE before the end. What the code does then
  depends on the last input line. `_advance_line` keeps that line at the end of the input, and
  `lex` goes on after its END_OF_FILE (lexing/lexer.py:20-24, 71-72).
  - If the last line ends with `\n`, the lexer lexes it again, so recovery finds its NEWLINE.
    The run then completes with the same rows, because recovery has already cleared the pending
    values.
  - Otherwise END_OF_FILE repeats forever and the code loops. This covers the header case.

  `ReadPastEnd` stands for both. The model does not say which one the code takes.
- Python-level crashes:
  - `str_buf += None` is a `TypeError` when a quoted span reaches the end of a line that has no
    `\n` (lexing/lexer.py:60-63). It is modelled as the lexer error `NoneConcatenation`.
  - Reading the type of a missing previous token crashes when the first token is a COMMA or
    NEWLINE (only possible with `from_header`). `ParserSpec.Inv` excludes it as a precondition.
  - `column_type` is unbound or stale after a failed lookup in WARNING mode, which needs an empty
    header. `ParserSpec.Inv` excludes WARNING mode with an empty header.
- Parser.CsvParser.Parse: requires `ParserSpec.Inv`, which excludes the two crashes above. The
  code has no such guard; it crashes instead.
- AssertPreviousValue (`Parser.CsvParser.AssertPreviousValue`) hands the "Empty value!" error to `_handle_error`. This is the corrected behaviour. As written, building the `CsvParserError` raises `AttributeError` first; `ParserAsWritten` models that (see "## Findings").
- AssertColumnIndex (`Parser.CsvParser.AssertColumnIndex`) hands the "Too many commas in row!" error to `_handle_error`. This is the corrected behaviour. As written, building the `CsvParserError` raises `AttributeError` first; `ParserAsWritten` models that (see "## Findings").
- ParsePass (`Parser.CsvParser.ParsePass`) equals `ParserSpec.Iterate`, which handles the parser errors of the pass. This is the corrected behaviour. As written, building the `CsvParserError` raises `AttributeError` first; `ParserAsWritten` models that (see "## Findings").
- Parse (`Parser.CsvParser.Parse`) equals `ParserSpec.ParseFrom`, which handles parser errors. This is the corrected behaviour. As written, building the `CsvParserError` raises `AttributeError` first; `ParserAsWritten` models that (see "## Findings").
- ParseErrors (`ParserProperties.ParseErrors`) says only the lexer or the end of the stream stops a WARNING run. This is the corrected behaviour. As written, building the `CsvParserError` raises `AttributeError` first; `ParserAsWritten` models that (see "## Findings").
- ParseOutcome (`ParserProperties.ParseOutcome`) says ERROR mode raises the parser error it handled. This is the corrected behaviour. As written, building the `CsvParserError` raises `AttributeError` first; `ParserAsWritten` models that (see "## Findings").
- PassHandlesExactly (`ParserProperties.PassHandlesExactly`) says a pass hands `PassErrors` to `_handle_error`. This is the corrected behaviour. As written, building the `CsvParserError` raises `AttributeError` first; `ParserAsWritten` models that (see "## Findings").
- WarnNewlineYieldsRow (`ParserProperties.WarnNewlineYieldsRow`) says a NEWLINE after an empty value still yields the row. This is the corrected behaviour. As written, building the `CsvParserError` raises `AttributeError` first; `ParserAsWritten` models that (see "## Findings").
- WarnCommaErrorSkipsLine (`ParserProperties.WarnCommaErrorSkipsLine`) says a comma error skips the rest of the line. This is the corrected behaviour. As written, building the `CsvParserError` raises `AttributeError` first; `ParserAsWritten` models that (see "## Findings").
- CheckValue (`ValidatorSpec.CheckValue` and `Validator.CsvTypeValidator.CheckValue`) return the error `_handle_error` receives. This is the corrected behaviour. As written, building the `CsvValidatorError` raises `TypeError` first; `ValidatorAsWritten` models that (see "## Findings").
- FirstFailure (`ValidatorSpec.FirstFailure`) is the error handled for a failing row. This is the corrected behaviour. As written, building the `CsvValidatorError` raises `TypeError` first; `ValidatorAsWritten` models that (see "## Findings").
- ValidateRows (`ValidatorSpec.ValidateRows`) drops a failing row in WARNING mode and raises its failure in ERROR mode. This is the corrected behaviour. As written, building the `CsvValidatorError` raises `TypeError` first; `ValidatorAsWritten` models that (see "## Findings").
- ValidateDroppedRow (`Validator.ValidateDroppedRow`) says a failing row is dropped in WARNING mode. This is the corrected behaviour. As written, building the `CsvValidatorError` raises `TypeError` first; `ValidatorAsWritten` models that (see "## Findings").
- ValidateRaisingRow (`Validator.ValidateRaisingRow`) says ERROR mode raises the handled validator error. This is the corrected behaviour. As written, building the `CsvValidatorError` raises `TypeError` first; `ValidatorAsWritten` models that (see "## Findings").
- WarnFiltersRows (`ValidatorSpec.WarnFiltersRows`) says WARNING mode raises nothing and yields every passing row. This is the corrected behaviour. As written, building the `CsvValidatorError` raises `TypeError` first; `ValidatorAsWritten` models that (see "## Findings").
- ErrorModeStopsAtFirstBadRow (`ValidatorSpec.ErrorModeStopsAtFirstBadRow`) says ERROR mode handles and raises the failure of the first bad row. This is the corrected behaviour. As written, building the `CsvValidatorError` raises `TypeError` first; `ValidatorAsWritten` models that (see "## Findings").
- CheckAll (`Validator.CsvTypeValidator.CheckAll`) handles the first failure of a row. This is the corrected behaviour. As written, building the `CsvValidatorError` raises `TypeError` first; `ValidatorAsWritten` models that (see "## Findings").
- Validate (`Validator.CsvTypeValidator.Validate`) equals `ValidatorSpec.ValidateRows`. This is the corrected behaviour. As written, building the `CsvValidatorError` raises `TypeError` first; `ValidatorAsWritten` models that (see "## Findings").
