/**
 * `CsvParser` (src/parsing/parser.py): drives the lexer, builds the header from line 1, then
 * yields one row per logical line, recovering from bad lines in WARNING mode. The generator
 * `parse` is a method that returns every row it would yield and how the run ends.
 */
module Parser {
  import opened Wrappers
  import opened Tokens
  import opened Errors
  import opened Header
  import opened Values
  import opened Rows
  import opened LexerSpec
  import opened Lexer
  import opened ParserSpec
  import opened ParserProperties

  /** A helper's effect as a `Res`: the state it leaves, stopped when it raised. */
  function AsRes(st: ParserState, stop: Option<Outcome>): Res {
    if stop.Some? then Stop(st, stop.value) else Ok(st)
  }

  /** A pass of the `parse` loop as an `Iter`: `end` says whether and how it stopped the loop. */
  function AsIter(st: ParserState, values: seq<CsvValue>, yielded: seq<CsvRow>, end: Option<Outcome>): Iter {
    if end.Some? then Done(st, yielded, end.value) else Next(st, values, yielded)
  }

  lemma PrependRows(rows: seq<CsvRow>, yielded: seq<CsvRow>, rest: seq<CsvRow>)
    ensures rows + (yielded + rest) == (rows + yielded) + rest
  {
  }

  class CsvParser {
    /** `self._input`: the lexer's token stream. */
    const stream: LexResult
    const badLineMode: BadLineMode
    var header: CsvHeader
    /** How many tokens have been pulled from the stream. */
    var pos: nat
    var currentToken: Token
    var previousToken: Option<Token>
    var columnIndex: int
    var errorState: bool
    var hadError: bool
    var lineNum: int
    /** The errors handled so far, in order: what WARNING mode prints. */
    ghost var log: seq<CsvError>
    /** What `__init__` raised, if it did; such a parser is never handed to a caller. */
    var initFailure: Option<Outcome>

    ghost function State(): ParserState
      reads this
    {
      ParserState(pos, currentToken, previousToken, columnIndex, errorState, hadError, lineNum, log)
    }

    /**
     * `__init__`: lex the lines, prime the first token and, unless told otherwise, parse the
     * header line.
     */
    constructor (lines: seq<string>, badLineMode: BadLineMode, allowMultilineStrings: bool, parseHeader: bool)
      ensures stream == Lex(lines, allowMultilineStrings) && this.badLineMode == badLineMode
      ensures ErrorsLogged() && log == []
      ensures Primed(stream).Stop? ==> initFailure == Some(Primed(stream).outcome) && State() == Primed(stream).st
      ensures Primed(stream).Ok? && !parseHeader ==>
                initFailure.None? && State() == Primed(stream).st && header == CsvHeader([])
      ensures Primed(stream).Ok? && parseHeader ==>
                var h := HeaderFrom(stream, Primed(stream).st, []);
                && (h.HeaderParsed? ==> initFailure.None? && State() == h.st && header == CsvHeader(h.decls))
                && (h.HeaderFailed? ==> initFailure == Some(h.outcome) && State() == h.st)
    {
      var lexer := new CsvLexer(lines, allowMultilineStrings);
      var tokens := lexer.Lex();
      stream := tokens;
      this.badLineMode := badLineMode;
      errorState := false;
      hadError := false;
      lineNum := 0;
      pos := 0;
      currentToken := CsvToken(EndOfFile, 0, 0);  // stands for `None` until the pump is primed
      previousToken := None;
      columnIndex := 0;
      log := [];
      header := CsvHeader([]);
      initFailure := None;
      new;
      var stop := Advance();  // Priming the pump
      if stop.Some? {
        initFailure := stop;
        return;
      }
      if parseHeader {
        stop := ParseHeader();
        initFailure := stop;
      }
    }

    /** `from_header`: a parser that takes its header from elsewhere instead of from line 1. */
    static method FromHeader(header: CsvHeader, lines: seq<string>, badLineMode: BadLineMode, allowMultilineStrings: bool)
      returns (p: CsvParser)
      ensures fresh(p) && p.header == header && p.badLineMode == badLineMode
      ensures p.stream == Lex(lines, allowMultilineStrings)
      ensures var primed := Primed(p.stream);
              && (primed.Stop? ==> p.initFailure == Some(primed.outcome) && p.State() == primed.st)
              && (primed.Ok? ==> p.initFailure.None? && p.State() == primed.st)
    {
      p := new CsvParser(lines, badLineMode, allowMultilineStrings, false);
      p.header := header;
    }

    /** `_parse_header`: the texts of the VALUE tokens up to the first NEWLINE become the header. */
    method ParseHeader() returns (stop: Option<Outcome>)
      requires pos <= |stream.tokens|
      modifies this
      ensures initFailure == old(initFailure)
      ensures var h := HeaderFrom(stream, old(State()), []);
              && (h.HeaderParsed? ==> stop.None? && State() == h.st && header == CsvHeader(h.decls))
              && (h.HeaderFailed? ==> stop == Some(h.outcome) && State() == h.st)
    {
      var commaIndex := 0;
      var headerColumnDecls: seq<string> := [];
      ghost var target := HeaderFrom(stream, State(), []);
      while true
        invariant pos <= |stream.tokens| && initFailure == old(initFailure)
        invariant HeaderFrom(stream, State(), headerColumnDecls) == target
        decreases |stream.tokens| - pos
      {
        var token := currentToken;
        match token.Type() {
          case Newline =>
            stop := AdvanceLine();
            if stop.Some? {
              return;
            }
            break;  // the header is only the first line
          case Comma =>
            commaIndex := commaIndex + 1;
          case Value =>
            headerColumnDecls := headerColumnDecls + [token.value];
          case EndOfFile =>
        }
        stop := Advance();
        if stop.Some? {
          return;
        }
      }
      header := CsvHeader(headerColumnDecls);
    }

    /** `_advance`; before the pump is primed the current token stands for `None`. */
    method Advance() returns (stop: Option<Outcome>)
      modifies this
      ensures header == old(header) && initFailure == old(initFailure)
      ensures AsRes(State(), stop) == ParserSpec.Advance(stream, old(State()))
    {
      previousToken := if pos == 0 then None else Some(currentToken);
      if pos < |stream.tokens| {
        currentToken := stream.tokens[pos];
        pos := pos + 1;
        return None;
      }
      if stream.failure.Some? {
        return Some(Raised(stream.failure.value));
      }
      return Some(ReadPastEnd);
    }

    /** `_advance_line`. */
    method AdvanceLine() returns (stop: Option<Outcome>)
      modifies this
      ensures header == old(header) && initFailure == old(initFailure)
      ensures AsRes(State(), stop) == ParserSpec.AdvanceLine(stream, old(State()))
    {
      stop := Advance();
      if stop.Some? {
        return;
      }
      lineNum := lineNum + 1;
    }

    /** `_handle_error`: ERROR mode raises, WARNING mode prints (here: logs) and carries on. */
    method HandleError(error: CsvError) returns (stop: Option<Outcome>)
      modifies this
      ensures header == old(header) && initFailure == old(initFailure)
      ensures AsRes(State(), stop) == ParserSpec.HandleError(badLineMode, old(State()), error)
    {
      errorState := true;
      hadError := true;
      log := log + [error];
      match badLineMode {
        case RaiseError =>
          return Some(Raised(error));
        case Warn =>
          return None;
      }
    }

    /** `_assert_previous_value`. */
    method AssertPreviousValue() returns (stop: Option<Outcome>)
      requires CanCheckPrevious(State())
      modifies this
      ensures header == old(header) && initFailure == old(initFailure)
      ensures AsRes(State(), stop) == ParserSpec.AssertPreviousValue(badLineMode, old(State()))
    {
      var current := currentToken;
      var last := previousToken;
      if current.IsSeparator() && last.value.IsSeparator() {
        stop := HandleError(ParserError(EmptyValue, Some(currentToken)));
      } else {
        stop := None;
      }
    }

    /** `_assert_column_index`. */
    method AssertColumnIndex() returns (stop: Option<Outcome>)
      modifies this
      ensures header == old(header) && initFailure == old(initFailure)
      ensures AsRes(State(), stop) == ParserSpec.AssertColumnIndex(header, badLineMode, old(State()))
    {
      var columnsCount := header.GetColumnCount();
      if columnIndex >= columnsCount {
        stop := HandleError(ParserError(TooManyCommas, Some(currentToken)));
      } else {
        stop := None;
      }
    }

    /** `_recover_from_error`: reset the column index and skip through the next NEWLINE. */
    method RecoverFromError() returns (stop: Option<Outcome>)
      requires pos <= |stream.tokens|
      modifies this
      ensures header == old(header) && initFailure == old(initFailure)
      ensures AsRes(State(), stop) == ParserSpec.RecoverFromError(stream, old(State()))
    {
      columnIndex := 0;
      ghost var target := SkipToNextLine(stream, State());
      while true
        invariant pos <= |stream.tokens|
        invariant header == old(header) && initFailure == old(initFailure)
        invariant SkipToNextLine(stream, State()) == target
        decreases |stream.tokens| - pos
      {
        var token := currentToken;
        if token.Type() == Newline {
          errorState := false;
          stop := AdvanceLine();
          return;
        }
        stop := Advance();
        if stop.Some? {
          return;
        }
      }
    }

    /** `had_error` is set exactly when some error has been handled. */
    ghost predicate ErrorsLogged()
      reads this
    {
      hadError <==> log != []
    }

    /** `had_errors`: whether `_handle_error` ever ran. */
    function HadErrors(): (r: bool)
      reads this
      requires ErrorsLogged()
      ensures r <==> log != []
    {
      hadError
    }

    /**
     * One pass of the `while not eof` loop of `parse`: the row values it leaves, the rows it
     * yields, and `end` when the loop stops (END_OF_FILE, or an exception).
     */
    method ParsePass(rowValues: seq<CsvValue>) returns (values: seq<CsvValue>, yielded: seq<CsvRow>, end: Option<Outcome>)
      requires Inv(stream, header, badLineMode, State())
      modifies this
      ensures header == old(header)
      ensures Iterate(stream, header, badLineMode, old(State()), rowValues) == AsIter(State(), values, yielded, end)
    {
      values := rowValues;
      yielded := [];
      end := None;
      if errorState {
        values := [];
        var stop := RecoverFromError();
        if stop.Some? {
          return values, yielded, stop;
        }
      }
      var token := currentToken;
      match token.Type() {
        case Newline =>
          var stop := AssertPreviousValue();
          if stop.Some? {
            return values, yielded, stop;
          }
          var row := CsvRow(values);
          values := [];
          columnIndex := 0;
          stop := AdvanceLine();
          if stop.Some? {
            return values, yielded, stop;
          }
          yielded := [row];
        case Comma =>
          var stop := AssertPreviousValue();
          if stop.Some? {
            return values, yielded, stop;
          }
          columnIndex := columnIndex + 1;
          stop := AssertColumnIndex();
          if stop.Some? {
            return values, yielded, stop;
          }
          end := Advance();
        case Value =>
          var columnType := header.LookupColumnType(columnIndex);
          if columnType.None? {
            end := HandleError(ParserError(CouldNotGetColumnType, previousToken));
            if end.None? {
              assert false;  // WARNING mode has a header, and the column index stays within it
            }
          } else {
            values := values + [CsvValue(columnType.value, token)];
            var stop := Advance();
            if stop.Some? {
              return values, yielded, stop;
            }
          }
        case EndOfFile =>
          if |values| != 0 {
            yielded := [CsvRow(values)];
            values := [];
          }
          end := Some(Completed);
      }
    }

    /**
     * `parse`: the rows it yields, in order, and how it ends: at END_OF_FILE, by an exception
     * (a parser error in ERROR mode, or a lexer error), or by reading past the END_OF_FILE.
     */
    method Parse() returns (rows: seq<CsvRow>, outcome: Outcome)
      requires Inv(stream, header, badLineMode, State().(columnIndex := 0)) && ErrorsLogged()
      modifies this
      ensures header == old(header) && ErrorsLogged()
      ensures var run := ParseFrom(stream, header, badLineMode, old(State()).(columnIndex := 0), []);
              rows == run.rows && outcome == run.outcome && State() == run.final
    {
      var eof := false;
      var rowValues: seq<CsvValue> := [];
      columnIndex := 0;
      rows := [];
      outcome := Completed;
      ghost var run := ParseFrom(stream, header, badLineMode, State(), rowValues);
      while !eof
        invariant header == old(header)
        invariant !eof ==> Inv(stream, header, badLineMode, State())
        invariant !eof ==> var rest := ParseFrom(stream, header, badLineMode, State(), rowValues);
                           run == ParseRun(rows + rest.rows, rest.outcome, rest.final)
        invariant eof ==> run == ParseRun(rows, outcome, State())
        decreases if eof then 0 else 1 + |stream.tokens| - pos
      {
        ghost var before := State();
        ghost var valuesBefore := rowValues;
        var yielded, end;
        rowValues, yielded, end := ParsePass(rowValues);
        if end.Some? {
          rows, outcome := rows + yielded, end.value;
          eof := true;
        } else {
          ParseFromUnfold(stream, header, badLineMode, before, valuesBefore);
          PrependRows(rows, yielded, ParseFrom(stream, header, badLineMode, State(), rowValues).rows);
          rows := rows + yielded;
        }
      }
      ParseErrors(stream, header, badLineMode, old(State()).(columnIndex := 0), []);
    }
  }
}
