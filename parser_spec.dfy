/**
 * The behaviour of `CsvParser` (src/parsing/parser.py) as functions on its state: each helper
 * method, one pass of the `parse` loop, the whole `parse` run and the header scan. The token
 * source is the lexer's stream, read up to its first END_OF_FILE.
 */
module ParserSpec {
  import opened Wrappers
  import opened Tokens
  import opened Errors
  import opened Header
  import opened Values
  import opened Rows
  import opened LexerSpec

  /** The parser's mutable fields; `log` lists the errors `_handle_error` has handled, in order. */
  datatype ParserState = ParserState(
    pos: nat,
    current: Token,
    previous: Option<Token>,
    columnIndex: int,
    errorState: bool,
    hadError: bool,
    lineNum: int,
    log: seq<CsvError>)

  /**
   * How a run ends: normally at END_OF_FILE, by an exception, or by asking for a token after the
   * stream's END_OF_FILE. In that last case the source lexes its last line again: when that line
   * ends with `\n`, recovery finds the NEWLINE and the run completes with the same rows;
   * otherwise END_OF_FILE repeats and the source loops forever.
   */
  datatype Outcome = Completed | Raised(error: CsvError) | ReadPastEnd

  /** What a helper leaves: the new state, and the outcome when it ended the run. */
  datatype Res = Ok(st: ParserState) | Stop(st: ParserState, outcome: Outcome)

  /** The current token is the last one pulled from the stream and the previous one the token before it. */
  predicate Synced(stream: LexResult, st: ParserState) {
    && 1 <= st.pos <= |stream.tokens|
    && st.current == stream.tokens[st.pos - 1]
    && st.previous == (if st.pos >= 2 then Some(stream.tokens[st.pos - 2]) else None)
  }

  /** How pulling a token past the end of the stream ends the run: with the lexer's exception, if any. */
  predicate StreamEnd(stream: LexResult, o: Outcome) {
    if stream.failure.Some? then o == Raised(stream.failure.value) else o == ReadPastEnd
  }

  /**
   * `_advance`: the current token becomes the previous one and the next one is pulled. Before
   * the pump is primed (nothing pulled yet) the current token stands for `None`, so priming
   * leaves no previous token.
   */
  function Advance(stream: LexResult, st: ParserState): (r: Res)
    ensures Synced(stream, st) && r.Ok? ==> Synced(stream, r.st)
    ensures r.Ok? ==> r.st.pos == st.pos + 1 && st.pos < |stream.tokens|
    ensures r.Stop? ==> StreamEnd(stream, r.outcome)
    ensures r.st.columnIndex == st.columnIndex && r.st.errorState == st.errorState && r.st.hadError == st.hadError
    ensures r.st.log == st.log
  {
    var s := st.(previous := if st.pos == 0 then None else Some(st.current));
    if st.pos < |stream.tokens| then Ok(s.(current := stream.tokens[st.pos], pos := st.pos + 1))
    else if stream.failure.Some? then Stop(s, Raised(stream.failure.value))
    else Stop(s, ReadPastEnd)
  }

  /** `_advance_line`: advance and count a line. */
  function AdvanceLine(stream: LexResult, st: ParserState): (r: Res)
    ensures Synced(stream, st) && r.Ok? ==> Synced(stream, r.st)
    ensures r.Ok? ==> r.st.pos == st.pos + 1 && st.pos < |stream.tokens|
    ensures r.Stop? ==> StreamEnd(stream, r.outcome)
    ensures r.st.columnIndex == st.columnIndex && r.st.errorState == st.errorState && r.st.hadError == st.hadError
    ensures r.st.log == st.log
  {
    match Advance(stream, st)
    case Ok(s) => Ok(s.(lineNum := s.lineNum + 1))
    case Stop(s, o) => Stop(s, o)
  }

  /** `_handle_error`: record the error; raise it in ERROR mode, carry on in WARNING mode. */
  function HandleError(mode: BadLineMode, st: ParserState, e: CsvError): (r: Res)
    ensures r.st == st.(errorState := true, hadError := true, log := st.log + [e])
    ensures r.Stop? <==> mode == RaiseError
    ensures r.Stop? ==> r.outcome == Raised(e)
  {
    var s := st.(errorState := true, hadError := true, log := st.log + [e]);
    if mode == RaiseError then Stop(s, Raised(e)) else Ok(s)
  }

  /** Reading `previous.type` fails when there is no previous token, so the check needs one for a separator. */
  predicate CanCheckPrevious(st: ParserState) {
    st.previous.Some? || !st.current.IsSeparator()
  }

  /** `_assert_previous_value`: a separator right after a separator is an empty value. */
  function AssertPreviousValue(mode: BadLineMode, st: ParserState): Res
    requires CanCheckPrevious(st)
  {
    if st.current.IsSeparator() && st.previous.value.IsSeparator() then
      HandleError(mode, st, ParserError(EmptyValue, Some(st.current)))
    else
      Ok(st)
  }

  /** `_assert_column_index`: a column index at or past the header's width is too many commas. */
  function AssertColumnIndex(header: CsvHeader, mode: BadLineMode, st: ParserState): Res {
    if st.columnIndex >= header.GetColumnCount() then
      HandleError(mode, st, ParserError(TooManyCommas, Some(st.current)))
    else
      Ok(st)
  }

  /** The loop of `_recover_from_error`: skip tokens up to and including the next NEWLINE. */
  function SkipToNextLine(stream: LexResult, st: ParserState): (r: Res)
    requires st.pos <= |stream.tokens|
    ensures Synced(stream, st) && r.Ok? ==> Synced(stream, r.st)
    ensures r.Ok? ==> r.st.pos > st.pos && !r.st.errorState
    ensures r.Stop? ==> StreamEnd(stream, r.outcome)
    ensures r.st.columnIndex == st.columnIndex && r.st.hadError == st.hadError && r.st.log == st.log
    decreases |stream.tokens| - st.pos
  {
    if st.current.Type() == Newline then
      AdvanceLine(stream, st.(errorState := false))
    else
      match Advance(stream, st)
      case Stop(s, o) => Stop(s, o)
      case Ok(s) => SkipToNextLine(stream, s)
  }

  /** `_recover_from_error`: back to column 0, then skip the rest of the line. */
  function RecoverFromError(stream: LexResult, st: ParserState): (r: Res)
    requires st.pos <= |stream.tokens|
    ensures Synced(stream, st) && r.Ok? ==> Synced(stream, r.st)
    ensures r.Ok? ==> r.st.pos > st.pos && !r.st.errorState && r.st.columnIndex == 0
    ensures r.Stop? ==> StreamEnd(stream, r.outcome)
    ensures r.st.hadError == st.hadError && r.st.log == st.log
  {
    SkipToNextLine(stream, st.(columnIndex := 0))
  }

  /**
   * The parser state keeps to the stream and to the preconditions of the source: the current
   * token is the last one pulled and the previous one the token before it; a separator is never
   * the first token (there would be no previous token to read); WARNING mode needs a header
   * (a failed column lookup would leave `column_type` unbound); outside an error the column index
   * stays within the header.
   */
  predicate Inv(stream: LexResult, header: CsvHeader, mode: BadLineMode, st: ParserState) {
    && Synced(stream, st)
    && (st.pos == 1 ==> !st.current.IsSeparator())
    && (header.GetColumnCount() > 0 || mode == RaiseError)
    && 0 <= st.columnIndex
    && (!st.errorState && header.GetColumnCount() > 0 ==> st.columnIndex < header.GetColumnCount())
  }

  /** One pass of the `while not eof` loop of `parse`. */
  datatype Iter =
    | Next(st: ParserState, rowValues: seq<CsvValue>, yielded: seq<CsvRow>)
    | Done(st: ParserState, yielded: seq<CsvRow>, outcome: Outcome)

  function Iterate(stream: LexResult, header: CsvHeader, mode: BadLineMode, st: ParserState, rowValues: seq<CsvValue>): (r: Iter)
    requires Inv(stream, header, mode, st)
    ensures r.Next? ==> r.st.pos > st.pos && Inv(stream, header, mode, r.st)
    ensures r.Done? && r.outcome == Completed ==> r.st.current.Type() == EndOfFile && Synced(stream, r.st)
  {
    match (if st.errorState then RecoverFromError(stream, st) else Ok(st))
    case Stop(s, o) => Done(s, [], o)
    case Ok(s) => OnToken(stream, header, mode, s, if st.errorState then [] else rowValues)
  }

  /** The `match token.type` of a pass, once out of any error state. */
  function OnToken(stream: LexResult, header: CsvHeader, mode: BadLineMode, st: ParserState, rowValues: seq<CsvValue>): (r: Iter)
    requires Inv(stream, header, mode, st) && !st.errorState
    ensures r.Next? ==> r.st.pos > st.pos && Inv(stream, header, mode, r.st)
    ensures r.Done? && r.outcome == Completed ==> r.st == st && st.current.Type() == EndOfFile
  {
    match st.current.Type()
    case Newline => OnNewline(stream, header, mode, st, rowValues)
    case Comma => OnComma(stream, header, mode, st, rowValues)
    case Value => OnValue(stream, header, mode, st, rowValues)
    case EndOfFile => Done(st, if |rowValues| != 0 then [CsvRow(rowValues)] else [], Completed)
  }

  /** NEWLINE: check for an empty last value, then yield the row and move to the next line. */
  function OnNewline(stream: LexResult, header: CsvHeader, mode: BadLineMode, st: ParserState, rowValues: seq<CsvValue>): (r: Iter)
    requires Inv(stream, header, mode, st) && !st.errorState && st.current.Type() == Newline
    ensures r.Next? ==> r.st.pos > st.pos && Inv(stream, header, mode, r.st)
    ensures r.Done? ==> r.outcome != Completed
  {
    match AssertPreviousValue(mode, st)
    case Stop(s1, o) => Done(s1, [], o)
    case Ok(s1) =>
      match AdvanceLine(stream, s1.(columnIndex := 0))
      case Stop(s2, o) => Done(s2, [], o)
      case Ok(s2) => Next(s2, [], [CsvRow(rowValues)])
  }

  /** COMMA: check for an empty value, move to the next column, check it is within the header. */
  function OnComma(stream: LexResult, header: CsvHeader, mode: BadLineMode, st: ParserState, rowValues: seq<CsvValue>): (r: Iter)
    requires Inv(stream, header, mode, st) && !st.errorState && st.current.Type() == Comma
    ensures r.Next? ==> r.st.pos > st.pos && Inv(stream, header, mode, r.st)
    ensures r.Done? ==> r.outcome != Completed
  {
    match AssertPreviousValue(mode, st)
    case Stop(s1, o) => Done(s1, [], o)
    case Ok(s1) =>
      match AssertColumnIndex(header, mode, s1.(columnIndex := s1.columnIndex + 1))
      case Stop(s2, o) => Done(s2, [], o)
      case Ok(s2) =>
        match Advance(stream, s2)
        case Stop(s3, o) => Done(s3, [], o)
        case Ok(s3) => Next(s3, rowValues, [])
  }

  /** VALUE: type the value by the header's declaration for the current column. */
  function OnValue(stream: LexResult, header: CsvHeader, mode: BadLineMode, st: ParserState, rowValues: seq<CsvValue>): (r: Iter)
    requires Inv(stream, header, mode, st) && !st.errorState && st.current.Type() == Value
    ensures r.Next? ==> r.st.pos > st.pos && Inv(stream, header, mode, r.st)
    ensures r.Done? ==> r.outcome != Completed
  {
    match header.LookupColumnType(st.columnIndex)
    case None =>
      (match HandleError(mode, st, ParserError(CouldNotGetColumnType, st.previous))
       case Stop(s1, o) => Done(s1, [], o)
       case Ok(s1) => assert false; Done(s1, [], Completed))
    case Some(columnType) =>
      match Advance(stream, st)
      case Stop(s1, o) => Done(s1, [], o)
      case Ok(s1) => Next(s1, rowValues + [CsvValue(columnType, st.current)], [])
  }

  /** Everything a run of `parse` yields, how it ends, and the state it leaves. */
  datatype ParseRun = ParseRun(rows: seq<CsvRow>, outcome: Outcome, final: ParserState)

  /** The `parse` loop from state `st` with `rowValues` accumulated. */
  function ParseFrom(stream: LexResult, header: CsvHeader, mode: BadLineMode, st: ParserState, rowValues: seq<CsvValue>): ParseRun
    requires Inv(stream, header, mode, st)
    decreases |stream.tokens| - st.pos
  {
    match Iterate(stream, header, mode, st, rowValues)
    case Done(s, ys, o) => ParseRun(ys, o, s)
    case Next(s, values, ys) =>
      var r := ParseFrom(stream, header, mode, s, values);
      ParseRun(ys + r.rows, r.outcome, r.final)
  }

  /** A pass that does not end the loop is followed by the rest of the run. */
  lemma ParseFromUnfold(stream: LexResult, header: CsvHeader, mode: BadLineMode, st: ParserState, rowValues: seq<CsvValue>)
    requires Inv(stream, header, mode, st)
    requires Iterate(stream, header, mode, st, rowValues).Next?
    ensures var it := Iterate(stream, header, mode, st, rowValues);
            var r := ParseFrom(stream, header, mode, it.st, it.rowValues);
            ParseFrom(stream, header, mode, st, rowValues) == ParseRun(it.yielded + r.rows, r.outcome, r.final)
  {
  }

  /** The outcome of `_parse_header`: the declarations and the state after the header line. */
  datatype HeaderRun = HeaderParsed(st: ParserState, decls: seq<string>) | HeaderFailed(st: ParserState, outcome: Outcome)

  /** The loop of `_parse_header` from state `st` with the declarations `decls` gathered so far. */
  function HeaderFrom(stream: LexResult, st: ParserState, decls: seq<string>): (r: HeaderRun)
    requires st.pos <= |stream.tokens|
    ensures r.HeaderParsed? ==> r.st.pos > st.pos
    ensures Synced(stream, st) && r.HeaderParsed? ==> Synced(stream, r.st)
    ensures r.st.columnIndex == st.columnIndex && r.st.errorState == st.errorState
    ensures r.st.hadError == st.hadError && r.st.log == st.log
    ensures r.HeaderFailed? ==> StreamEnd(stream, r.outcome)
    decreases |stream.tokens| - st.pos
  {
    if st.current.Type() == Newline then
      match AdvanceLine(stream, st)
      case Ok(s) => HeaderParsed(s, decls)
      case Stop(s, o) => HeaderFailed(s, o)
    else
      var more := if st.current.Type() == Value then decls + [st.current.value] else decls;
      match Advance(stream, st)
      case Ok(s) => HeaderFrom(stream, s, more)
      case Stop(s, o) => HeaderFailed(s, o)
  }

  /** The state `__init__` leaves after priming the pump: the first token is current, with none before it. */
  function Primed(stream: LexResult): Res {
    Advance(stream, ParserState(0, CsvToken(EndOfFile, 0, 0), None, 0, false, false, 0, []))
  }
}
