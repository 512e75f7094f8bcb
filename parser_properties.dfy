/**
 * What a run of `parse` (src/parsing/parser.py) promises, proved on `ParseFrom`: how errors are
 * handled in each bad-line mode, that a clean line becomes one row typed by the header, where
 * the values of the rows come from, and what `_parse_header` reads.
 */
module ParserProperties {
  import opened Wrappers
  import opened Tokens
  import opened Errors
  import opened Header
  import opened Values
  import opened Rows
  import opened LexerSpec
  import opened LexerProperties
  import opened ParserSpec

  /** How one pass of the loop, from `st` to `r`, treats errors. */
  predicate ErrorsKept(stream: LexResult, mode: BadLineMode, st: ParserState, r: Iter) {
    && st.log <= r.st.log
    && r.st.hadError == (st.hadError || |r.st.log| > |st.log|)
    && (forall k :: |st.log| <= k < |r.st.log| ==> r.st.log[k].ParserError?)
    && (r.Done? && r.outcome != Completed && (mode == Warn || r.st.log == st.log) ==> StreamEnd(stream, r.outcome))
    && (mode == RaiseError && r.Next? ==> r.st.log == st.log)
    && (mode == RaiseError && r.st.log != st.log ==>
          r.Done? && r.outcome.Raised? && r.st.log == st.log + [r.outcome.error])
  }

  lemma OnNewlineErrors(stream: LexResult, header: CsvHeader, mode: BadLineMode, st: ParserState, rowValues: seq<CsvValue>)
    requires Inv(stream, header, mode, st) && !st.errorState && st.current.Type() == Newline
    ensures ErrorsKept(stream, mode, st, OnNewline(stream, header, mode, st, rowValues))
  {
  }

  lemma OnCommaErrors(stream: LexResult, header: CsvHeader, mode: BadLineMode, st: ParserState, rowValues: seq<CsvValue>)
    requires Inv(stream, header, mode, st) && !st.errorState && st.current.Type() == Comma
    ensures ErrorsKept(stream, mode, st, OnComma(stream, header, mode, st, rowValues))
  {
  }

  lemma OnValueErrors(stream: LexResult, header: CsvHeader, mode: BadLineMode, st: ParserState, rowValues: seq<CsvValue>)
    requires Inv(stream, header, mode, st) && !st.errorState && st.current.Type() == Value
    ensures ErrorsKept(stream, mode, st, OnValue(stream, header, mode, st, rowValues))
  {
  }

  lemma IterateErrors(stream: LexResult, header: CsvHeader, mode: BadLineMode, st: ParserState, rowValues: seq<CsvValue>)
    requires Inv(stream, header, mode, st)
    ensures ErrorsKept(stream, mode, st, Iterate(stream, header, mode, st, rowValues))
  {
    match (if st.errorState then RecoverFromError(stream, st) else Ok(st))
    case Stop(s, o) =>
    case Ok(s) =>
      var values := if st.errorState then [] else rowValues;
      match s.current.Type()
      case Newline => OnNewlineErrors(stream, header, mode, s, values);
      case Comma => OnCommaErrors(stream, header, mode, s, values);
      case Value => OnValueErrors(stream, header, mode, s, values);
      case EndOfFile =>
  }

  /**
   * Errors over a whole run: the log only grows, `had_errors` reports whether it did, every
   * handled error is a parser error; in WARNING mode only the lexer's exception (or the end of the
   * stream) stops the run; in ERROR mode at most one error is handled, and it is the one raised.
   */
  lemma {:induction false} ParseErrors(stream: LexResult, header: CsvHeader, mode: BadLineMode, st: ParserState, rowValues: seq<CsvValue>)
    requires Inv(stream, header, mode, st)
    ensures var run := ParseFrom(stream, header, mode, st, rowValues);
            && st.log <= run.final.log
            && run.final.hadError == (st.hadError || |run.final.log| > |st.log|)
            && (forall k :: |st.log| <= k < |run.final.log| ==> run.final.log[k].ParserError?)
            && (mode == Warn && run.outcome != Completed ==> StreamEnd(stream, run.outcome))
            && (mode == RaiseError && run.final.log == st.log && run.outcome != Completed ==> StreamEnd(stream, run.outcome))
            && (mode == RaiseError && run.final.log != st.log ==>
                  run.outcome.Raised? && run.final.log == st.log + [run.outcome.error])
    decreases |stream.tokens| - st.pos
  {
    IterateErrors(stream, header, mode, st, rowValues);
    match Iterate(stream, header, mode, st, rowValues)
    case Done(_, _, _) =>
    case Next(s, values, _) =>
      ParseErrors(stream, header, mode, s, values);
  }

  /**
   * For a run over the lexer's stream from a fresh error state: in ERROR mode the run ends
   * normally exactly when no error was handled and the lexer did not fail, and a parser error is
   * raised exactly when one was handled; in WARNING mode a run that does not complete was ended
   * by the lexer's exception or by the end of the stream.
   */
  lemma ParseOutcome(stream: LexResult, header: CsvHeader, mode: BadLineMode, st: ParserState, rowValues: seq<CsvValue>)
    requires WellFormed(stream)
    requires Inv(stream, header, mode, st) && st.log == [] && !st.hadError
    ensures var run := ParseFrom(stream, header, mode, st, rowValues);
            && run.final.hadError == (|run.final.log| > 0)
            && (mode == RaiseError ==>
                  && |run.final.log| <= 1
                  && (run.outcome == Completed ==> run.final.log == [] && stream.failure.None?)
                  && (run.final.log != [] ==> run.outcome.Raised?)
                  && (run.outcome.Raised? ==> (run.outcome.error.ParserError? <==> run.final.log == [run.outcome.error])))
            && (mode == Warn ==> run.outcome != Completed ==> StreamEnd(stream, run.outcome))
  {
    ParseErrors(stream, header, mode, st, rowValues);
    var run := ParseFrom(stream, header, mode, st, rowValues);
    if run.outcome == Completed {
      ParseCompletesAtEnd(stream, header, mode, st, rowValues);
    }
    if mode == RaiseError && run.outcome.Raised? {
      if run.final.log == [] {
        assert run.outcome.error == stream.failure.value && stream.failure.value.IsLexerError();
      } else {
        assert run.final.log == [run.outcome.error] && run.final.log[0].ParserError?;
      }
    }
  }

  /** A run that completes stopped at the END_OF_FILE token, which only a stream without lexer failure has. */
  lemma {:induction false} ParseCompletesAtEnd(stream: LexResult, header: CsvHeader, mode: BadLineMode, st: ParserState, rowValues: seq<CsvValue>)
    requires WellFormed(stream)
    requires Inv(stream, header, mode, st)
    ensures var run := ParseFrom(stream, header, mode, st, rowValues);
            run.outcome == Completed ==> run.final.current.Type() == EndOfFile && stream.failure.None?
    decreases |stream.tokens| - st.pos
  {
    match Iterate(stream, header, mode, st, rowValues)
    case Done(s, _, o) =>
      if o == Completed {
        assert s.current == stream.tokens[s.pos - 1] by {
          match (if st.errorState then RecoverFromError(stream, st) else Ok(st))
          case Stop(_, _) =>
          case Ok(_) =>
        }
      }
    case Next(s, values, _) =>
      ParseCompletesAtEnd(stream, header, mode, s, values);
  }

  /** Every value is typed by a header declaration and carries a VALUE token of the stream. */
  predicate FromHeaderAndStream(stream: LexResult, header: CsvHeader, vs: seq<CsvValue>) {
    forall k :: 0 <= k < |vs| ==> vs[k].columnType in header.columnDecls && vs[k].token in stream.tokens
  }

  /** One pass keeps the row values, and yields rows, made only of header-typed values on stream tokens. */
  predicate ValuesKept(stream: LexResult, header: CsvHeader, r: Iter) {
    && (r.Next? ==> FromHeaderAndStream(stream, header, r.rowValues))
    && forall k :: 0 <= k < |r.yielded| ==> FromHeaderAndStream(stream, header, r.yielded[k].values)
  }

  lemma OnNewlineValues(stream: LexResult, header: CsvHeader, mode: BadLineMode, st: ParserState, rowValues: seq<CsvValue>)
    requires Inv(stream, header, mode, st) && !st.errorState && st.current.Type() == Newline
    requires FromHeaderAndStream(stream, header, rowValues)
    ensures ValuesKept(stream, header, OnNewline(stream, header, mode, st, rowValues))
  {
  }

  lemma OnCommaValues(stream: LexResult, header: CsvHeader, mode: BadLineMode, st: ParserState, rowValues: seq<CsvValue>)
    requires Inv(stream, header, mode, st) && !st.errorState && st.current.Type() == Comma
    requires FromHeaderAndStream(stream, header, rowValues)
    ensures ValuesKept(stream, header, OnComma(stream, header, mode, st, rowValues))
  {
  }

  lemma OnValueValues(stream: LexResult, header: CsvHeader, mode: BadLineMode, st: ParserState, rowValues: seq<CsvValue>)
    requires Inv(stream, header, mode, st) && !st.errorState && st.current.Type() == Value
    requires FromHeaderAndStream(stream, header, rowValues)
    ensures ValuesKept(stream, header, OnValue(stream, header, mode, st, rowValues))
  {
    var r := OnValue(stream, header, mode, st, rowValues);
    if r.Next? {
      assert st.current == stream.tokens[st.pos - 1];
      assert header.LookupColumnType(st.columnIndex).Some?;
    }
  }

  lemma IterateValues(stream: LexResult, header: CsvHeader, mode: BadLineMode, st: ParserState, rowValues: seq<CsvValue>)
    requires Inv(stream, header, mode, st)
    requires FromHeaderAndStream(stream, header, rowValues)
    ensures ValuesKept(stream, header, Iterate(stream, header, mode, st, rowValues))
  {
    match (if st.errorState then RecoverFromError(stream, st) else Ok(st))
    case Stop(s, o) =>
    case Ok(s) =>
      var values := if st.errorState then [] else rowValues;
      match s.current.Type()
      case Newline => OnNewlineValues(stream, header, mode, s, values);
      case Comma => OnCommaValues(stream, header, mode, s, values);
      case Value => OnValueValues(stream, header, mode, s, values);
      case EndOfFile =>
  }

  /** Every row of `rows` holds only header-typed values on stream tokens. */
  predicate RowsFromHeaderAndStream(stream: LexResult, header: CsvHeader, rows: seq<CsvRow>) {
    forall k :: 0 <= k < |rows| ==> FromHeaderAndStream(stream, header, rows[k].values)
  }

  lemma RowsFromHeaderAndStreamAppend(stream: LexResult, header: CsvHeader, ys: seq<CsvRow>, rest: seq<CsvRow>)
    requires RowsFromHeaderAndStream(stream, header, ys) && RowsFromHeaderAndStream(stream, header, rest)
    ensures RowsFromHeaderAndStream(stream, header, ys + rest)
  {
    assert forall k :: 0 <= k < |ys + rest| ==> (ys + rest)[k] == if k < |ys| then ys[k] else rest[k - |ys|];
  }

  /** Every row a run yields holds values typed by the header's declarations, on tokens of the stream. */
  lemma {:induction false} ParseValuesFromHeader(stream: LexResult, header: CsvHeader, mode: BadLineMode, st: ParserState, rowValues: seq<CsvValue>)
    requires Inv(stream, header, mode, st)
    requires FromHeaderAndStream(stream, header, rowValues)
    ensures RowsFromHeaderAndStream(stream, header, ParseFrom(stream, header, mode, st, rowValues).rows)
    decreases |stream.tokens| - st.pos
  {
    IterateValues(stream, header, mode, st, rowValues);
    var it := Iterate(stream, header, mode, st, rowValues);
    assert RowsFromHeaderAndStream(stream, header, it.yielded);
    if it.Next? {
      ParseValuesFromHeader(stream, header, mode, it.st, it.rowValues);
      ParseFromUnfold(stream, header, mode, st, rowValues);
      RowsFromHeaderAndStreamAppend(stream, header, it.yielded, ParseFrom(stream, header, mode, it.st, it.rowValues).rows);
    }
  }

  /** The tokens of a line without empty values: VALUE, then COMMA VALUE pairs. */
  predicate CleanFields(ts: seq<Token>) {
    && |ts| % 2 == 1
    && forall k :: 0 <= k < |ts| ==> if k % 2 == 0 then ts[k].CsvValueToken? else ts[k].Type() == Comma
  }

  /** The values of a clean line: its k-th VALUE token typed by the header's k-th declaration. */
  function FieldValues(header: CsvHeader, ts: seq<Token>): (vs: seq<CsvValue>)
    requires forall k :: 0 <= k < |ts| && k % 2 == 0 ==> ts[k].CsvValueToken?
    requires (|ts| + 1) / 2 <= |header.columnDecls|
    ensures |vs| == (|ts| + 1) / 2
    decreases |ts|
  {
    if |ts| == 0 then []
    else
      var init := FieldValues(header, ts[..|ts| - 1]);
      if (|ts| - 1) % 2 == 0 then init + [CsvValue(header.columnDecls[(|ts| - 1) / 2], ts[|ts| - 1])] else init
  }

  /** The k-th value of a clean line is its k-th VALUE token, typed by the header's k-th declaration. */
  lemma {:induction false} FieldValuesTyped(header: CsvHeader, ts: seq<Token>)
    requires forall k :: 0 <= k < |ts| && k % 2 == 0 ==> ts[k].CsvValueToken?
    requires (|ts| + 1) / 2 <= |header.columnDecls|
    ensures var vs := FieldValues(header, ts);
            forall k :: 0 <= k < |vs| ==> vs[k] == CsvValue(header.columnDecls[k], ts[2 * k])
    decreases |ts|
  {
    if |ts| != 0 {
      var init := ts[..|ts| - 1];
      FieldValuesTyped(header, init);
      assert forall k :: 0 <= k < |init| ==> init[k] == ts[k];
    }
  }

  /** A clean line at `b` of the stream that fits the header, followed by a NEWLINE and one more token. */
  predicate CleanLineAt(stream: LexResult, header: CsvHeader, b: nat, ts: seq<Token>) {
    && b + |ts| + 1 < |stream.tokens|
    && stream.tokens[b..b + |ts|] == ts
    && stream.tokens[b + |ts|].Type() == Newline
    && CleanFields(ts)
    && (|ts| + 1) / 2 <= header.GetColumnCount()
  }

  /** The state after the NEWLINE that ends a clean line: next token current, column 0, one line further. */
  function AfterLine(stream: LexResult, st: ParserState, p: nat): ParserState
    requires 2 <= p <= |stream.tokens|
  {
    st.(pos := p, current := stream.tokens[p - 1], previous := Some(stream.tokens[p - 2]), columnIndex := 0, lineNum := st.lineNum + 1)
  }

  /** Extending a clean prefix by a VALUE adds its value; by a COMMA adds nothing. */
  lemma FieldValuesSnoc(header: CsvHeader, ts: seq<Token>, i: nat)
    requires CleanFields(ts) && (|ts| + 1) / 2 <= header.GetColumnCount() && i < |ts|
    ensures FieldValues(header, ts[..i + 1])
            == FieldValues(header, ts[..i]) + (if i % 2 == 0 then [CsvValue(header.columnDecls[i / 2], ts[i])] else [])
  {
    assert ts[..i + 1][..i] == ts[..i];
  }

  /** The state after pulling one more token, in column `columnIndex`. */
  function Pulled(stream: LexResult, st: ParserState, columnIndex: int): ParserState
    requires 1 <= st.pos < |stream.tokens|
  {
    st.(pos := st.pos + 1, current := stream.tokens[st.pos], previous := Some(st.current), columnIndex := columnIndex)
  }

  /** Outside an error state a pass goes straight to the current token. */
  lemma IterateWithoutError(stream: LexResult, header: CsvHeader, mode: BadLineMode, st: ParserState, rowValues: seq<CsvValue>)
    requires Inv(stream, header, mode, st) && !st.errorState
    ensures Iterate(stream, header, mode, st, rowValues) == OnToken(stream, header, mode, st, rowValues)
  {
  }

  /** A pass that yields nothing and does not stop leaves the rest of the run unchanged. */
  lemma QuietPass(stream: LexResult, header: CsvHeader, mode: BadLineMode, st: ParserState, rowValues: seq<CsvValue>,
                  next: ParserState, values: seq<CsvValue>)
    requires Inv(stream, header, mode, st)
    requires Iterate(stream, header, mode, st, rowValues) == Next(next, values, [])
    ensures Inv(stream, header, mode, next)
    ensures ParseFrom(stream, header, mode, st, rowValues) == ParseFrom(stream, header, mode, next, values)
  {
    ParseFromUnfold(stream, header, mode, st, rowValues);
    assert [] + ParseFrom(stream, header, mode, next, values).rows == ParseFrom(stream, header, mode, next, values).rows;
  }

  lemma CleanValueStep(stream: LexResult, header: CsvHeader, mode: BadLineMode, st: ParserState,
                       b: nat, ts: seq<Token>, i: nat, rowValues: seq<CsvValue>)
    requires CleanLineAt(stream, header, b, ts)
    requires Inv(stream, header, mode, st)
    requires i < |ts| && i % 2 == 0 && st.pos == b + i + 1 && !st.errorState && st.columnIndex == i / 2
    ensures var next := Pulled(stream, st, i / 2);
            && Inv(stream, header, mode, next)
            && ParseFrom(stream, header, mode, st, rowValues)
               == ParseFrom(stream, header, mode, next, rowValues + [CsvValue(header.columnDecls[i / 2], ts[i])])
  {
    assert stream.tokens[b + i] == ts[i];
    var values := rowValues + [CsvValue(header.columnDecls[i / 2], ts[i])];
    assert header.LookupColumnType(i / 2) == Some(header.columnDecls[i / 2]);
    assert Advance(stream, st) == Ok(Pulled(stream, st, i / 2));
    assert OnValue(stream, header, mode, st, rowValues) == Next(Pulled(stream, st, i / 2), values, []);
    IterateWithoutError(stream, header, mode, st, rowValues);
    QuietPass(stream, header, mode, st, rowValues, Pulled(stream, st, i / 2), values);
  }

  lemma CleanCommaStep(stream: LexResult, header: CsvHeader, mode: BadLineMode, st: ParserState,
                       b: nat, ts: seq<Token>, i: nat, rowValues: seq<CsvValue>)
    requires CleanLineAt(stream, header, b, ts)
    requires Inv(stream, header, mode, st)
    requires i < |ts| && i % 2 == 1 && st.pos == b + i + 1 && !st.errorState && st.columnIndex == i / 2
    ensures var next := Pulled(stream, st, i / 2 + 1);
            && Inv(stream, header, mode, next)
            && ParseFrom(stream, header, mode, st, rowValues) == ParseFrom(stream, header, mode, next, rowValues)
  {
    assert stream.tokens[b + i] == ts[i];
    assert stream.tokens[b + i - 1] == ts[i - 1];
    assert AssertPreviousValue(mode, st) == Ok(st);
    var moved := st.(columnIndex := i / 2 + 1);
    assert AssertColumnIndex(header, mode, moved) == Ok(moved);
    assert Advance(stream, moved) == Ok(Pulled(stream, st, i / 2 + 1));
    assert OnComma(stream, header, mode, st, rowValues) == Next(Pulled(stream, st, i / 2 + 1), rowValues, []);
    IterateWithoutError(stream, header, mode, st, rowValues);
    QuietPass(stream, header, mode, st, rowValues, Pulled(stream, st, i / 2 + 1), rowValues);
  }

  lemma CleanNewlineStep(stream: LexResult, header: CsvHeader, mode: BadLineMode, st: ParserState,
                         b: nat, ts: seq<Token>, rowValues: seq<CsvValue>)
    requires CleanLineAt(stream, header, b, ts)
    requires Inv(stream, header, mode, st)
    requires st.pos == b + |ts| + 1 && !st.errorState
    ensures Iterate(stream, header, mode, st, rowValues)
            == Next(AfterLine(stream, st, b + |ts| + 2), [], [CsvRow(rowValues)])
  {
    assert stream.tokens[b + |ts| - 1] == ts[|ts| - 1];
    assert AssertPreviousValue(mode, st) == Ok(st);
    assert AdvanceLine(stream, st.(columnIndex := 0)) == Ok(AfterLine(stream, st, b + |ts| + 2));
    assert OnNewline(stream, header, mode, st, rowValues) == Next(AfterLine(stream, st, b + |ts| + 2), [], [CsvRow(rowValues)]);
    IterateWithoutError(stream, header, mode, st, rowValues);
  }

  lemma CleanLineEnd(stream: LexResult, header: CsvHeader, mode: BadLineMode, st: ParserState,
                     b: nat, ts: seq<Token>, rowValues: seq<CsvValue>)
    requires CleanLineAt(stream, header, b, ts)
    requires Inv(stream, header, mode, st)
    requires st.pos == b + |ts| + 1 && !st.errorState
    ensures var rest := ParseFrom(stream, header, mode, AfterLine(stream, st, b + |ts| + 2), []);
            ParseFrom(stream, header, mode, st, rowValues) == ParseRun([CsvRow(rowValues)] + rest.rows, rest.outcome, rest.final)
  {
    CleanNewlineStep(stream, header, mode, st, b, ts, rowValues);
    ParseFromUnfold(stream, header, mode, st, rowValues);
  }

  /** One token of a clean line: a VALUE adds its typed value, a COMMA moves to the next column. */
  lemma CleanStep(stream: LexResult, header: CsvHeader, mode: BadLineMode, st: ParserState,
                  b: nat, ts: seq<Token>, i: nat, rowValues: seq<CsvValue>)
    requires CleanLineAt(stream, header, b, ts)
    requires Inv(stream, header, mode, st)
    requires i < |ts| && st.pos == b + i + 1 && !st.errorState && st.columnIndex == i / 2
    requires rowValues == FieldValues(header, ts[..i])
    ensures var next := Pulled(stream, st, (i + 1) / 2);
            && Inv(stream, header, mode, next)
            && ParseFrom(stream, header, mode, st, rowValues) == ParseFrom(stream, header, mode, next, FieldValues(header, ts[..i + 1]))
  {
    var next := Pulled(stream, st, (i + 1) / 2);
    var values := FieldValues(header, ts[..i + 1]);
    FieldValuesSnoc(header, ts, i);
    if i % 2 == 0 {
      assert next == Pulled(stream, st, i / 2);
      assert values == rowValues + [CsvValue(header.columnDecls[i / 2], ts[i])];
      CleanValueStep(stream, header, mode, st, b, ts, i, rowValues);
    } else {
      assert next == Pulled(stream, st, i / 2 + 1);
      assert values == rowValues;
      CleanCommaStep(stream, header, mode, st, b, ts, i, rowValues);
    }
  }

  lemma {:induction false} CleanLineFrom(stream: LexResult, header: CsvHeader, mode: BadLineMode, st: ParserState,
                                         b: nat, ts: seq<Token>, i: nat, rowValues: seq<CsvValue>, after: ParserState)
    requires CleanLineAt(stream, header, b, ts)
    requires Inv(stream, header, mode, st)
    requires i <= |ts| && st.pos == b + i + 1 && !st.errorState && st.columnIndex == i / 2
    requires rowValues == FieldValues(header, ts[..i])
    requires after == AfterLine(stream, st, b + |ts| + 2) && Inv(stream, header, mode, after)
    ensures var rest := ParseFrom(stream, header, mode, after, []);
            ParseFrom(stream, header, mode, st, rowValues) == ParseRun([CsvRow(FieldValues(header, ts))] + rest.rows, rest.outcome, rest.final)
    decreases |ts| - i
  {
    if i == |ts| {
      assert ts[..i] == ts;
      CleanLineEnd(stream, header, mode, st, b, ts, rowValues);
    } else {
      var next := Pulled(stream, st, (i + 1) / 2);
      var values := FieldValues(header, ts[..i + 1]);
      CleanStep(stream, header, mode, st, b, ts, i, rowValues);
      assert AfterLine(stream, next, b + |ts| + 2) == after;
      CleanLineFrom(stream, header, mode, next, b, ts, i + 1, values, after);
    }
  }

  /**
   * A line of VALUEs separated by single COMMAs, no wider than the header, becomes exactly one
   * row: its k-th value typed by the k-th header declaration. No error is handled, and the run
   * carries on at the next line.
   */
  lemma CleanLineYieldsRow(stream: LexResult, header: CsvHeader, mode: BadLineMode, st: ParserState, ts: seq<Token>)
    requires Inv(stream, header, mode, st) && !st.errorState && st.columnIndex == 0
    requires CleanLineAt(stream, header, st.pos - 1, ts)
    ensures var rest := ParseFrom(stream, header, mode, AfterLine(stream, st, st.pos + |ts| + 1), []);
            ParseFrom(stream, header, mode, st, []) == ParseRun([CsvRow(FieldValues(header, ts))] + rest.rows, rest.outcome, rest.final)
  {
    assert ts[..0] == [];
    assert Inv(stream, header, mode, AfterLine(stream, st, st.pos + |ts| + 1));
    CleanLineFrom(stream, header, mode, st, st.pos - 1, ts, 0, [], AfterLine(stream, st, st.pos + |ts| + 1));
  }

  /** The texts of the VALUE tokens among `ts[i..j]`, in order. */
  function ValueTexts(ts: seq<Token>, i: nat, j: nat): (texts: seq<string>)
    requires i <= j <= |ts|
    ensures |texts| <= j - i
    decreases j - i
  {
    if i == j then []
    else (if ts[i].CsvValueToken? then [ts[i].value] else []) + ValueTexts(ts, i + 1, j)
  }

  /** One step of `_parse_header` before the NEWLINE: a VALUE's text is appended and the next token pulled. */
  lemma HeaderStep(stream: LexResult, st: ParserState, decls: seq<string>)
    requires Synced(stream, st) && st.pos < |stream.tokens| && st.current.Type() != Newline
    ensures var head := if st.current.CsvValueToken? then [st.current.value] else [];
            && Synced(stream, Pulled(stream, st, st.columnIndex))
            && HeaderFrom(stream, st, decls) == HeaderFrom(stream, Pulled(stream, st, st.columnIndex), decls + head)
  {
    var head := if st.current.CsvValueToken? then [st.current.value] else [];
    assert (st.current.Type() == Value) == st.current.CsvValueToken?;
    assert decls + [] == decls;
    assert Advance(stream, st) == Ok(Pulled(stream, st, st.columnIndex));
  }

  /** At the NEWLINE `_parse_header` stops with the declarations read so far, one line further. */
  lemma HeaderAtNewline(stream: LexResult, st: ParserState, decls: seq<string>)
    requires Synced(stream, st) && st.pos < |stream.tokens| && st.current.Type() == Newline
    ensures var h := HeaderFrom(stream, st, decls);
            && h.HeaderParsed?
            && h.decls == decls + ValueTexts(stream.tokens, st.pos - 1, st.pos - 1)
            && h.st.pos == st.pos + 1 && h.st.lineNum == st.lineNum + 1
            && Synced(stream, h.st)
  {
    assert decls + [] == decls;
  }

  /** The declarations after one more step: the first token's text, then those of the rest of the line. */
  lemma HeaderDeclsRegroup(a: seq<Token>, i: nat, j: nat, decls: seq<string>, head: seq<string>)
    requires i < j <= |a|
    requires head == if a[i].CsvValueToken? then [a[i].value] else []
    ensures (decls + head) + ValueTexts(a, i + 1, j) == decls + ValueTexts(a, i, j)
  {
    assert ValueTexts(a, i, j) == head + ValueTexts(a, i + 1, j);
  }

  /**
   * `_parse_header` reads the first line: the declarations are the VALUE texts before the first
   * NEWLINE, and parsing resumes at the token after it, on the next line.
   */
  lemma {:induction false} HeaderFromFirstLine(stream: LexResult, st: ParserState, decls: seq<string>, j: nat)
    requires Synced(stream, st)
    requires st.pos - 1 <= j && j + 1 < |stream.tokens| && stream.tokens[j].Type() == Newline
    requires forall k :: st.pos - 1 <= k < j ==> stream.tokens[k].Type() != Newline
    ensures var h := HeaderFrom(stream, st, decls);
            && h.HeaderParsed?
            && h.decls == decls + ValueTexts(stream.tokens, st.pos - 1, j)
            && h.st.pos == j + 2 && h.st.lineNum == st.lineNum + 1
            && Synced(stream, h.st)
    decreases j - st.pos
  {
    if st.pos - 1 == j {
      HeaderAtNewline(stream, st, decls);
    } else {
      var head := if st.current.CsvValueToken? then [st.current.value] else [];
      HeaderStep(stream, st, decls);
      HeaderFromFirstLine(stream, Pulled(stream, st, st.columnIndex), decls + head, j);
      HeaderDeclsRegroup(stream.tokens, st.pos - 1, j, decls, head);
    }
  }

  /** Without a NEWLINE left in the stream, `_parse_header` runs off the end of the stream. */
  lemma {:induction false} HeaderWithoutNewline(stream: LexResult, st: ParserState, decls: seq<string>)
    requires Synced(stream, st)
    requires forall k :: st.pos - 1 <= k < |stream.tokens| ==> stream.tokens[k].Type() != Newline
    ensures var h := HeaderFrom(stream, st, decls);
            h.HeaderFailed? && StreamEnd(stream, h.outcome)
    decreases |stream.tokens| - st.pos
  {
    if st.pos < |stream.tokens| {
      var more := if st.current.Type() == Value then decls + [st.current.value] else decls;
      HeaderWithoutNewline(stream, Advance(stream, st).st, more);
    }
  }

  /**
   * A parser built by `__init__` whose header line parsed meets what `parse` needs, provided
   * WARNING mode has a non-empty header.
   */
  lemma ConstructedParserCanParse(stream: LexResult, mode: BadLineMode)
    requires Primed(stream).Ok?
    requires var h := HeaderFrom(stream, Primed(stream).st, []);
             h.HeaderParsed? && (|h.decls| > 0 || mode == RaiseError)
    ensures var h := HeaderFrom(stream, Primed(stream).st, []);
            && Inv(stream, CsvHeader(h.decls), mode, h.st.(columnIndex := 0))
            && h.st.log == [] && !h.st.hadError
  {
  }

  /**
   * A parser built by `from_header` meets what `parse` needs, provided its first token is not a
   * separator and WARNING mode has a non-empty header: priming leaves no previous token.
   */
  lemma FromHeaderParserCanParse(stream: LexResult, header: CsvHeader, mode: BadLineMode)
    requires Primed(stream).Ok?
    requires !stream.tokens[0].IsSeparator() && (header.GetColumnCount() > 0 || mode == RaiseError)
    ensures var st := Primed(stream).st;
            && Inv(stream, header, mode, st.(columnIndex := 0))
            && st.previous.None? && st.log == [] && !st.hadError
  {
  }

  // ---------------------------------------------------------------------------------------------
  // Error detection and recovery, one pass at a time

  /**
   * The errors one pass from outside an error state hands to `_handle_error`, in order: an empty
   * value at a separator right after a separator, too many commas at a COMMA that brings the
   * column index to the header's width, a failed lookup at a VALUE past the header's width
   * (blamed on the previous token). ERROR mode raises the first, so it handles only that one.
   */
  function PassErrors(header: CsvHeader, mode: BadLineMode, st: ParserState): (es: seq<CsvError>)
    requires CanCheckPrevious(st)
    ensures mode == RaiseError ==> |es| <= 1
    ensures forall k :: 0 <= k < |es| ==> es[k].ParserError?
  {
    var empty := if st.current.IsSeparator() && st.previous.value.IsSeparator()
                 then [ParserError(EmptyValue, Some(st.current))] else [];
    var overflow := if st.current.Type() == Comma && st.columnIndex + 1 >= header.GetColumnCount()
                    then [ParserError(TooManyCommas, Some(st.current))] else [];
    var lookup := if st.current.Type() == Value && st.columnIndex >= header.GetColumnCount()
                  then [ParserError(CouldNotGetColumnType, st.previous)] else [];
    var found := empty + overflow + lookup;
    if mode == RaiseError && |found| > 1 then found[..1] else found
  }

  /**
   * A pass from outside an error state handles exactly the errors `PassErrors` lists; in ERROR
   * mode a pass that handles one raises it at once and yields nothing, and in WARNING mode it
   * leaves the parser in the error state.
   */
  lemma PassHandlesExactly(stream: LexResult, header: CsvHeader, mode: BadLineMode, st: ParserState, rowValues: seq<CsvValue>)
    requires Inv(stream, header, mode, st) && !st.errorState
    ensures var r := Iterate(stream, header, mode, st, rowValues);
            var es := PassErrors(header, mode, st);
            && r.st.log == st.log + es
            && (mode == RaiseError && es != [] ==> r == Done(r.st, [], Raised(es[0])))
            && (mode == Warn && es != [] && r.Next? ==> r.st.errorState)
  {
    IterateWithoutError(stream, header, mode, st, rowValues);
    var es := PassErrors(header, mode, st);
    match st.current.Type()
    case Newline =>
      assert es == (if st.previous.value.IsSeparator() then [ParserError(EmptyValue, Some(st.current))] else []);
    case Comma =>
      var empty := if st.previous.value.IsSeparator() then [ParserError(EmptyValue, Some(st.current))] else [];
      var overflow := if st.columnIndex + 1 >= header.GetColumnCount() then [ParserError(TooManyCommas, Some(st.current))] else [];
      assert es == if mode == RaiseError && |empty + overflow| > 1 then (empty + overflow)[..1] else empty + overflow;
    case Value =>
      assert es == (if st.columnIndex >= header.GetColumnCount() then [ParserError(CouldNotGetColumnType, st.previous)] else []);
    case EndOfFile =>
      assert es == [];
  }

  /**
   * A failed column lookup needs an empty header: otherwise a COMMA reaching the header's width
   * has already been reported, and the column index of a VALUE is always within the header.
   */
  lemma LookupFailsOnlyWithoutHeader(stream: LexResult, header: CsvHeader, mode: BadLineMode, st: ParserState)
    requires Inv(stream, header, mode, st) && !st.errorState && st.current.Type() == Value
    ensures header.LookupColumnType(st.columnIndex).None? <==> header.GetColumnCount() == 0
  {
  }

  /** At a VALUE within the header, the value is typed by the declaration of the current column. */
  lemma ValueTypedByColumn(stream: LexResult, header: CsvHeader, mode: BadLineMode, st: ParserState, rowValues: seq<CsvValue>)
    requires Inv(stream, header, mode, st) && !st.errorState && st.current.Type() == Value
    requires st.pos < |stream.tokens|
    ensures var r := Iterate(stream, header, mode, st, rowValues);
            header.GetColumnCount() > 0 ==>
              r == Next(Pulled(stream, st, st.columnIndex), rowValues + [CsvValue(header.columnDecls[st.columnIndex], st.current)], [])
  {
    IterateWithoutError(stream, header, mode, st, rowValues);
  }

  /**
   * At END_OF_FILE the run stops normally; the values gathered on the unfinished last line are
   * yielded as one final row when there are any.
   */
  lemma EndOfFileFlushes(stream: LexResult, header: CsvHeader, mode: BadLineMode, st: ParserState, rowValues: seq<CsvValue>)
    requires Inv(stream, header, mode, st) && !st.errorState && st.current.Type() == EndOfFile
    ensures ParseFrom(stream, header, mode, st, rowValues)
            == ParseRun(if |rowValues| != 0 then [CsvRow(rowValues)] else [], Completed, st)
  {
    IterateWithoutError(stream, header, mode, st, rowValues);
  }

  /**
   * WARNING mode, NEWLINE: the line's values are yielded as a row even when the NEWLINE closes an
   * empty value; the error then leaves the parser in the error state, so the next line is skipped.
   */
  lemma WarnNewlineYieldsRow(stream: LexResult, header: CsvHeader, st: ParserState, rowValues: seq<CsvValue>)
    requires Inv(stream, header, Warn, st) && !st.errorState && st.current.Type() == Newline
    requires st.pos < |stream.tokens|
    ensures var r := Iterate(stream, header, Warn, st, rowValues);
            && r.Next? && r.yielded == [CsvRow(rowValues)] && r.rowValues == []
            && r.st.columnIndex == 0 && r.st.lineNum == st.lineNum + 1
            && (r.st.errorState <==> st.previous.value.IsSeparator())
  {
    IterateWithoutError(stream, header, Warn, st, rowValues);
  }

  /** The token at `j` is the first NEWLINE at or after index `i`, and a token follows it. */
  predicate NextNewlineAt(stream: LexResult, i: nat, j: nat) {
    && i <= j && j + 1 < |stream.tokens|
    && stream.tokens[j].Type() == Newline
    && forall k :: i <= k < j ==> stream.tokens[k].Type() != Newline
  }

  /** The state in which recovery resumes after the NEWLINE at `j`: column 0, out of the error state, one line further. */
  function Resumed(stream: LexResult, st: ParserState, j: nat): ParserState
    requires j + 1 < |stream.tokens|
  {
    st.(pos := j + 2, current := stream.tokens[j + 1], previous := Some(stream.tokens[j]),
        columnIndex := 0, errorState := false, lineNum := st.lineNum + 1)
  }

  lemma {:induction false} SkipToNewline(stream: LexResult, st: ParserState, j: nat)
    requires Synced(stream, st) && NextNewlineAt(stream, st.pos - 1, j)
    ensures SkipToNextLine(stream, st) == Ok(Resumed(stream, st, j).(columnIndex := st.columnIndex))
    decreases j - st.pos + 1
  {
    if st.pos - 1 < j {
      SkipToNewline(stream, Advance(stream, st).st, j);
    }
  }

  /**
   * Recovery: a pass that starts in the error state drops the gathered values, skips every token
   * through the next NEWLINE and goes on from the next line at column 0, out of the error state.
   */
  lemma RecoverySkipsLine(stream: LexResult, header: CsvHeader, mode: BadLineMode, st: ParserState,
                          rowValues: seq<CsvValue>, j: nat)
    requires Inv(stream, header, mode, st) && st.errorState
    requires NextNewlineAt(stream, st.pos - 1, j)
    ensures Inv(stream, header, mode, Resumed(stream, st, j))
    ensures ParseFrom(stream, header, mode, st, rowValues) == ParseFrom(stream, header, mode, Resumed(stream, st, j), [])
  {
    var s := Resumed(stream, st, j);
    SkipToNewline(stream, st.(columnIndex := 0), j);
    assert RecoverFromError(stream, st) == Ok(s);
    IterateWithoutError(stream, header, mode, s, []);
    assert Iterate(stream, header, mode, st, rowValues) == Iterate(stream, header, mode, s, []);
  }

  /**
   * WARNING mode, COMMA: a comma that raises an error ends the line's contribution. Nothing of the
   * line is yielded; the run goes on after the line's NEWLINE at column 0 with an empty
   * accumulator, the errors recorded and `had_errors` set.
   */
  lemma WarnCommaErrorSkipsLine(stream: LexResult, header: CsvHeader, st: ParserState, rowValues: seq<CsvValue>, j: nat)
    requires Inv(stream, header, Warn, st) && !st.errorState && st.current.Type() == Comma
    requires PassErrors(header, Warn, st) != []
    requires NextNewlineAt(stream, st.pos, j)
    ensures var handled := st.(log := st.log + PassErrors(header, Warn, st), hadError := true);
            && Inv(stream, header, Warn, Resumed(stream, handled, j))
            && ParseFrom(stream, header, Warn, st, rowValues) == ParseFrom(stream, header, Warn, Resumed(stream, handled, j), [])
  {
    PassHandlesExactly(stream, header, Warn, st, rowValues);
    IterateWithoutError(stream, header, Warn, st, rowValues);
    var r := Iterate(stream, header, Warn, st, rowValues);
    assert r.Next? && r.yielded == [] && r.st.pos == st.pos + 1 && r.st.errorState;
    var handled := st.(log := st.log + PassErrors(header, Warn, st), hadError := true);
    assert Resumed(stream, r.st, j) == Resumed(stream, handled, j);
    QuietPass(stream, header, Warn, st, rowValues, r.st, r.rowValues);
    RecoverySkipsLine(stream, header, Warn, r.st, r.rowValues, j);
  }
}
