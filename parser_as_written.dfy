/**
 * `parse` (src/parsing/parser.py) as the code stands. Constructing a `CsvParserError`
 * (src/parsing/parser_error.py:7-9) calls `CsvError.__init__` (error.py:2-4) before setting
 * `self.token`; that constructor calls the overridden `get_printable_message`, which reads
 * `self.token`, so every construction raises `AttributeError`. Each `_handle_error(CsvParserError(..))`
 * therefore fails before `_handle_error` runs: the first parser error ends the run in either mode,
 * with nothing handled. The rest of the model follows the evidently intended behaviour, in which
 * the error is built and handled (`ParserSpec.ParseFrom`).
 */
module ParserAsWritten {
  import opened Wrappers
  import opened Tokens
  import opened Errors
  import opened Header
  import opened Values
  import opened Rows
  import opened LexerSpec
  import opened ParserSpec
  import opened ParserProperties

  /** How a run as written ends: as the intended run would, or with the `AttributeError` of building a parser error. */
  datatype WrittenOutcome = Ended(outcome: Outcome) | AttributeErrorRaised

  datatype WrittenRun = WrittenRun(rows: seq<CsvRow>, outcome: WrittenOutcome, final: ParserState)

  /**
   * The state a pass leaves when it fails building its first parser error: a COMMA that follows a
   * value has already moved the column index when `_assert_column_index` fails.
   */
  function CrashState(st: ParserState): ParserState
    requires CanCheckPrevious(st)
  {
    if st.current.Type() == Comma && !st.previous.value.IsSeparator() then st.(columnIndex := st.columnIndex + 1) else st
  }

  /** A pass that finds no error leaves the parser outside the error state with the same log and flag. */
  lemma QuietPassOutOfError(stream: LexResult, header: CsvHeader, mode: BadLineMode, st: ParserState, rowValues: seq<CsvValue>)
    requires Inv(stream, header, mode, st) && !st.errorState && PassErrors(header, mode, st) == []
    ensures var r := Iterate(stream, header, mode, st, rowValues);
            && r.st.log == st.log && r.st.hadError == st.hadError
            && (r.Next? ==> !r.st.errorState)
  {
    PassHandlesExactly(stream, header, mode, st, rowValues);
    IterateErrors(stream, header, mode, st, rowValues);
    IterateWithoutError(stream, header, mode, st, rowValues);
  }

  /**
   * The `parse` loop as written, from a state outside the error state (the only kind it reaches):
   * a pass without errors does what the intended pass does; a pass that would report an error
   * raises `AttributeError` before yielding anything.
   */
  function ParseAsWritten(stream: LexResult, header: CsvHeader, mode: BadLineMode, st: ParserState, rowValues: seq<CsvValue>): WrittenRun
    requires Inv(stream, header, mode, st) && !st.errorState
    decreases |stream.tokens| - st.pos
  {
    if PassErrors(header, mode, st) != [] then WrittenRun([], AttributeErrorRaised, CrashState(st))
    else
      QuietPassOutOfError(stream, header, mode, st, rowValues);
      match Iterate(stream, header, mode, st, rowValues)
      case Done(s, ys, o) => WrittenRun(ys, Ended(o), s)
      case Next(s, values, ys) =>
        var r := ParseAsWritten(stream, header, mode, s, values);
        WrittenRun(ys + r.rows, r.outcome, r.final)
  }

  /** As written, no error is ever handled: the log stays as it was and `had_errors` does not change. */
  lemma {:induction false} AsWrittenNeverHandles(stream: LexResult, header: CsvHeader, mode: BadLineMode, st: ParserState, rowValues: seq<CsvValue>)
    requires Inv(stream, header, mode, st) && !st.errorState
    ensures var w := ParseAsWritten(stream, header, mode, st, rowValues);
            w.final.log == st.log && w.final.hadError == st.hadError && !w.final.errorState
    decreases |stream.tokens| - st.pos
  {
    if PassErrors(header, mode, st) == [] {
      QuietPassOutOfError(stream, header, mode, st, rowValues);
      match Iterate(stream, header, mode, st, rowValues)
      case Done(s, _, _) =>
        assert !s.errorState by {
          IterateWithoutError(stream, header, mode, st, rowValues);
        }
      case Next(s, values, _) =>
        AsWrittenNeverHandles(stream, header, mode, s, values);
    }
  }

  /**
   * The code as written crashes exactly on the runs in which the intended parser handles an
   * error; otherwise the two runs agree. Either way the rows yielded as written are a prefix of
   * the intended rows.
   */
  lemma {:induction false} AsWrittenVersusIntended(stream: LexResult, header: CsvHeader, mode: BadLineMode, st: ParserState, rowValues: seq<CsvValue>)
    requires Inv(stream, header, mode, st) && !st.errorState
    ensures var w := ParseAsWritten(stream, header, mode, st, rowValues);
            var p := ParseFrom(stream, header, mode, st, rowValues);
            && (w.outcome == AttributeErrorRaised <==> p.final.log != st.log)
            && (w.outcome != AttributeErrorRaised ==> w == WrittenRun(p.rows, Ended(p.outcome), p.final))
            && w.rows <= p.rows
    decreases |stream.tokens| - st.pos
  {
    var es := PassErrors(header, mode, st);
    PassHandlesExactly(stream, header, mode, st, rowValues);
    match Iterate(stream, header, mode, st, rowValues)
    case Done(s, ys, o) =>
    case Next(s, values, ys) =>
      var rest := ParseFrom(stream, header, mode, s, values);
      ParseErrors(stream, header, mode, s, values);
      if es == [] {
        QuietPassOutOfError(stream, header, mode, st, rowValues);
        AsWrittenVersusIntended(stream, header, mode, s, values);
      } else {
        assert |rest.final.log| >= |s.log| > |st.log|;
      }
  }

  /**
   * The line `1,,2` under the header `a,b` in WARNING mode: the intended parser reports the empty
   * value and the extra comma, skips the line and completes; the code as written raises
   * `AttributeError` at the second comma instead.
   */
  lemma EmptyValueCrashes()
    ensures var tokens := [CsvValueToken("1", 2, 1), CsvToken(Comma, 2, 2), CsvToken(Comma, 2, 3),
                           CsvValueToken("2", 2, 4), CsvToken(Newline, 3, 0), CsvToken(EndOfFile, 3, 0)];
            var stream := LexResult(tokens, None);
            var header := CsvHeader(["a", "b"]);
            var st := ParserState(1, tokens[0], None, 0, false, false, 2, []);
            && Inv(stream, header, Warn, st)
            && ParseFrom(stream, header, Warn, st, []).outcome == Completed
            && ParseFrom(stream, header, Warn, st, []).rows == []
            && ParseFrom(stream, header, Warn, st, []).final.log
               == [ParserError(EmptyValue, Some(tokens[2])), ParserError(TooManyCommas, Some(tokens[2]))]
            && ParseAsWritten(stream, header, Warn, st, [])
               == WrittenRun([], AttributeErrorRaised, st.(pos := 3, current := tokens[2], previous := Some(tokens[1]), columnIndex := 1))
  {
    var tokens := [CsvValueToken("1", 2, 1), CsvToken(Comma, 2, 2), CsvToken(Comma, 2, 3),
                   CsvValueToken("2", 2, 4), CsvToken(Newline, 3, 0), CsvToken(EndOfFile, 3, 0)];
    var stream := LexResult(tokens, None);
    var header := CsvHeader(["a", "b"]);
    var log := [ParserError(EmptyValue, Some(tokens[2])), ParserError(TooManyCommas, Some(tokens[2]))];
    var values := [CsvValue("a", tokens[0])];
    // The states at the start of each pass: after `1`, after the first comma, after the second.
    var st0 := ParserState(1, tokens[0], None, 0, false, false, 2, []);
    var st1 := st0.(pos := 2, current := tokens[1], previous := Some(tokens[0]));
    var st2 := st1.(pos := 3, current := tokens[2], previous := Some(tokens[1]), columnIndex := 1);
    var st3 := st2.(pos := 4, current := tokens[3], previous := Some(tokens[2]), columnIndex := 2,
                    errorState := true, hadError := true, log := log);
    // Recovery skips `2` and the NEWLINE and stops at END_OF_FILE.
    var st4 := st3.(pos := 6, current := tokens[5], previous := Some(tokens[4]), columnIndex := 0,
                    errorState := false, lineNum := 3);
    assert Inv(stream, header, Warn, st0);
    assert Iterate(stream, header, Warn, st0, []) == Next(st1, values, []);
    assert Iterate(stream, header, Warn, st1, values) == Next(st2, values, []);
    assert PassErrors(header, Warn, st2) == log;
    assert Iterate(stream, header, Warn, st2, values) == Next(st3, values, []);
    var atNewline := st3.(pos := 5, current := tokens[4], previous := Some(tokens[3]), columnIndex := 0);
    assert Advance(stream, st3.(columnIndex := 0)) == Ok(atNewline);
    assert SkipToNextLine(stream, atNewline) == Ok(st4);
    assert RecoverFromError(stream, st3) == Ok(st4);
    assert Iterate(stream, header, Warn, st3, values) == Done(st4, [], Completed);
    QuietPass(stream, header, Warn, st0, [], st1, values);
    QuietPass(stream, header, Warn, st1, values, st2, values);
    QuietPass(stream, header, Warn, st2, values, st3, values);
    assert ParseFrom(stream, header, Warn, st3, values) == ParseRun([], Completed, st4);
    assert PassErrors(header, Warn, st0) == [] && PassErrors(header, Warn, st1) == [];
    assert ParseAsWritten(stream, header, Warn, st2, values) == WrittenRun([], AttributeErrorRaised, st2);
    assert ParseAsWritten(stream, header, Warn, st1, values) == WrittenRun([], AttributeErrorRaised, st2);
  }
}
