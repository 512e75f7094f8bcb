/** What the lexer (lexing/lexer.py) promises about the values it scans and the stream it yields. */
module LexerProperties {
  import opened Wrappers
  import opened Tokens
  import opened Errors
  import opened LexerSpec

  // ---------------------------------------------------------------------------------------------
  // Scanning one value

  /** Quote characters are never kept. */
  lemma {:induction false} UnquotedHasNoQuote(s: string)
    ensures '"' !in Unquoted(s) && |Unquoted(s)| <= |s|
  {
    if s != [] {
      UnquotedHasNoQuote(s[1..]);
    }
  }

  /**
   * A scanned value is the scanned stretch of the line with its quote characters removed:
   * everything else, commas inside quotes included, is kept verbatim and in order.
   */
  lemma {:induction false} ScannedTextIsUnquotedStretch(line: string, i: nat, inString: bool, buf: string, start: nat, multiline: bool)
    requires i <= |line|
    ensures var r := ScanFrom(line, i, inString, buf, start, multiline);
            r.Scanned? ==> r.text == buf + Unquoted(line[i..r.end])
    decreases |line| - i
  {
    var r := ScanFrom(line, i, inString, buf, start, multiline);
    if r.Scanned? {
      if i < |line| && line[i] == '"' {
        if inString {
          assert line[i..r.end] == ['"'];
          assert Unquoted(line[i..r.end]) == [] + Unquoted([]);
        } else {
          ScannedTextIsUnquotedStretch(line, i + 1, true, buf, start, multiline);
          assert line[i..r.end][1..] == line[i + 1..r.end];
        }
      } else if i < |line| && line[i] == '\n' {
        assert line[i..r.end] == [];
      } else if !inString && (i == |line| || line[i] == ',') {
        assert line[i..r.end] == [];
      } else {
        ScannedTextIsUnquotedStretch(line, i + 1, inString, buf + [line[i]], start, multiline);
        assert line[i..r.end][1..] == line[i + 1..r.end];
      }
    }
  }

  /** Every value text the lexer can scan is free of quote characters. */
  lemma ScannedTextHasNoQuote(line: string, i: nat, multiline: bool)
    requires i <= |line|
    ensures var r := ScanFrom(line, i, false, "", i, multiline);
            r.Scanned? ==> '"' !in r.text
  {
    ScannedTextIsUnquotedStretch(line, i, false, "", i, multiline);
    var r := ScanFrom(line, i, false, "", i, multiline);
    if r.Scanned? {
      UnquotedHasNoQuote(line[i..r.end]);
    }
  }

  /** Outside quotes, characters other than a quote, comma or newline are gathered one by one. */
  lemma {:induction false} PlainRun(line: string, i: nat, k: nat, buf: string, start: nat, multiline: bool)
    requires i <= k <= |line|
    requires forall j :: i <= j < k ==> line[j] != '"' && line[j] != ',' && line[j] != '\n'
    ensures ScanFrom(line, i, false, buf, start, multiline) == ScanFrom(line, k, false, buf + line[i..k], start, multiline)
    decreases k - i
  {
    if i < k {
      PlainRun(line, i + 1, k, buf + [line[i]], start, multiline);
      assert buf + [line[i]] + line[i + 1..k] == buf + line[i..k];
    } else {
      assert buf + line[i..k] == buf;
    }
  }

  /** Inside quotes, characters other than a quote or newline are gathered one by one. */
  lemma {:induction false} QuotedRun(line: string, i: nat, k: nat, buf: string, start: nat, multiline: bool)
    requires i <= k <= |line|
    requires forall j :: i <= j < k ==> line[j] != '"' && line[j] != '\n'
    ensures ScanFrom(line, i, true, buf, start, multiline) == ScanFrom(line, k, true, buf + line[i..k], start, multiline)
    decreases k - i
  {
    if i < k {
      QuotedRun(line, i + 1, k, buf + [line[i]], start, multiline);
      assert buf + [line[i]] + line[i + 1..k] == buf + line[i..k];
    } else {
      assert buf + line[i..k] == buf;
    }
  }

  /** An unquoted value stops before a comma, a newline or the end of the line, without consuming it. */
  lemma UnquotedValue(line: string, i: nat, k: nat, multiline: bool)
    requires i <= k <= |line|
    requires forall j :: i <= j < k ==> line[j] != '"' && line[j] != ',' && line[j] != '\n'
    requires k == |line| || line[k] == ',' || line[k] == '\n'
    ensures ScanFrom(line, i, false, "", i, multiline) == Scanned(line[i..k], k)
  {
    PlainRun(line, i, k, "", i, multiline);
    assert "" + line[i..k] == line[i..k];
  }

  /** A quoted value keeps what lies between its quotes, commas included, and its closing quote ends it. */
  lemma QuotedValue(line: string, i: nat, k: nat, multiline: bool)
    requires i < k < |line| && line[i] == '"' && line[k] == '"'
    requires forall j :: i < j < k ==> line[j] != '"' && line[j] != '\n'
    ensures ScanFrom(line, i, false, "", i, multiline) == Scanned(line[i + 1..k], k + 1)
  {
    QuotedRun(line, i + 1, k, "", i, multiline);
    assert "" + line[i + 1..k] == line[i + 1..k];
  }

  /**
   * A quoted span that reaches a newline is an "Unterminated string!" error at the value's 0-based
   * start when multi-line strings are off; when they are on, the value just ends before the newline.
   */
  lemma QuotedValueReachingNewline(line: string, i: nat, k: nat, multiline: bool)
    requires i < k < |line| && line[i] == '"' && line[k] == '\n'
    requires forall j :: i < j < k ==> line[j] != '"' && line[j] != '\n'
    ensures !multiline ==> ScanFrom(line, i, false, "", i, multiline) == ScanFailed(UnterminatedString(i))
    ensures multiline ==> ScanFrom(line, i, false, "", i, multiline) == Scanned(line[i + 1..k], k)
  {
    QuotedRun(line, i + 1, k, "", i, multiline);
    assert "" + line[i + 1..k] == line[i + 1..k];
  }

  // ---------------------------------------------------------------------------------------------
  // The token stream

  /** A stream as the parser receives it: END_OF_FILE only as its last token, and last unless the lexer failed. */
  predicate WellFormed(r: LexResult) {
    && (forall k :: 0 <= k < |r.tokens| - 1 ==> r.tokens[k].Type() != EndOfFile)
    && (r.failure.None? ==> |r.tokens| > 0 && r.tokens[|r.tokens| - 1].Type() == EndOfFile)
    && (r.failure.Some? ==> r.failure.value.IsLexerError()
                            && forall k :: 0 <= k < |r.tokens| ==> r.tokens[k].Type() != EndOfFile)
  }

  /** The lexer's stream is well formed: it ends at its first END_OF_FILE, or at a lexer error. */
  lemma {:induction false} LexFromWellFormed(s: LexerState, multiline: bool)
    requires s.Valid()
    ensures WellFormed(LexFrom(s, multiline))
    decreases |s.rest|, (if s.stopRequested then 0 else 1), |s.line| - s.index
  {
    match LexStep(s, multiline)
    case StepFailed(e) =>
    case Emit(t, n) =>
      if t.Type() != EndOfFile {
        LexFromWellFormed(n, multiline);
        var r := LexFrom(n, multiline);
        assert LexFrom(s, multiline).tokens == [t] + r.tokens;
      }
  }

  /** No value token of the stream holds a quote character. */
  lemma {:induction false} LexFromValuesUnquoted(s: LexerState, multiline: bool)
    requires s.Valid()
    ensures var ts := LexFrom(s, multiline).tokens;
            forall k :: 0 <= k < |ts| && ts[k].CsvValueToken? ==> '"' !in ts[k].value
    decreases |s.rest|, (if s.stopRequested then 0 else 1), |s.line| - s.index
  {
    match LexStep(s, multiline)
    case StepFailed(e) =>
    case Emit(t, n) =>
      if t.Type() != EndOfFile {
        LexFromValuesUnquoted(n, multiline);
        if t.CsvValueToken? {
          ScannedTextHasNoQuote(s.line, s.index, multiline);
        }
        var ts := LexFrom(s, multiline).tokens;
        assert ts == [t] + LexFrom(n, multiline).tokens;
        assert forall k :: 1 <= k < |ts| ==> ts[k] == LexFrom(n, multiline).tokens[k - 1];
      }
  }

  /** The number of NEWLINE tokens among `ts`. */
  function NewlineCount(ts: seq<Token>): nat {
    if ts == [] then 0 else NewlineCount(ts[..|ts| - 1]) + (if ts[|ts| - 1].Type() == Newline then 1 else 0)
  }

  lemma {:induction false} NewlineCountPrepend(t: Token, ts: seq<Token>)
    ensures NewlineCount([t] + ts) == NewlineCount(ts) + (if t.Type() == Newline then 1 else 0)
    decreases |ts|
  {
    if ts != [] {
      var init := ts[..|ts| - 1];
      assert ([t] + ts)[..|ts|] == [t] + init;
      NewlineCountPrepend(t, init);
    } else {
      assert ([t] + ts)[..0] == [];
    }
  }

  /**
   * Each token reports the line number it was read on, counting one more for every NEWLINE up to
   * and including itself: a NEWLINE reports the number of the line it moves to.
   */
  lemma {:induction false} LexFromLineNumbers(s: LexerState, multiline: bool)
    requires s.Valid()
    ensures forall k :: 0 <= k < |LexFrom(s, multiline).tokens| ==>
              LexFrom(s, multiline).tokens[k].lineNum == s.lineNum + NewlineCount(LexFrom(s, multiline).tokens[..k + 1])
    decreases |s.rest|, (if s.stopRequested then 0 else 1), |s.line| - s.index
  {
    var ts := LexFrom(s, multiline).tokens;
    match LexStep(s, multiline)
    case StepFailed(e) =>
    case Emit(t, n) =>
      if t.Type() == EndOfFile {
        assert ts[..1] == [t] && [t][..0] == [];
      } else {
        LexFromLineNumbers(n, multiline);
        var rs := LexFrom(n, multiline).tokens;
        assert ts == [t] + rs;
        assert n.lineNum == s.lineNum + (if t.Type() == Newline then 1 else 0);
        forall k | 0 <= k < |ts| ensures ts[k].lineNum == s.lineNum + NewlineCount(ts[..k + 1]) {
          if k == 0 {
            assert ts[..1] == [t] + [];
            NewlineCountPrepend(t, []);
          } else {
            assert ts[k] == rs[k - 1];
            assert rs[k - 1].lineNum == n.lineNum + NewlineCount(rs[..k]);
            assert ts[..k + 1] == [t] + rs[..k];
            NewlineCountPrepend(t, rs[..k]);
            assert rs[..k] == rs[..(k - 1) + 1];
          }
        }
      }
  }

  /** The state keeps to the input: line `lineNum` is the current line, or the input has run out. */
  predicate Tracks(s: LexerState, input: seq<string>) {
    if s.stopRequested then s.rest == [] && s.lineNum == |input| + 1 && s.index == 0
    else 1 <= s.lineNum <= |input| && s.line == input[s.lineNum - 1] && s.rest == input[s.lineNum..]
  }

  /** `text` is the stretch `line[start..end]` with its quote characters removed. */
  predicate UnquotedStretch(line: string, start: int, end: int, text: string) {
    0 <= start <= end <= |line| && text == Unquoted(line[start..end])
  }

  /**
   * Every token points at the character it was made from (line and column both 1-based); a
   * VALUE's text is the stretch of its line from that column on, with the quotes removed.
   */
  predicate PointsAt(t: Token, input: seq<string>) {
    match t.Type()
    case Comma =>
      1 <= t.lineNum <= |input| && 1 <= t.charIndex <= |input[t.lineNum - 1]|
      && input[t.lineNum - 1][t.charIndex - 1] == ','
    case Value =>
      && 1 <= t.lineNum <= |input| && 1 <= t.charIndex <= |input[t.lineNum - 1]|
      && input[t.lineNum - 1][t.charIndex - 1] != ',' && input[t.lineNum - 1][t.charIndex - 1] != '\n'
      && t.CsvValueToken?
      && exists e {:trigger UnquotedStretch(input[t.lineNum - 1], t.charIndex - 1, e, t.value)} :: t.charIndex - 1 <= e <= |input[t.lineNum - 1]| && UnquotedStretch(input[t.lineNum - 1], t.charIndex - 1, e, t.value)
    case Newline =>
      2 <= t.lineNum <= |input| + 1 && t.charIndex == 0 && '\n' in input[t.lineNum - 2]
    case EndOfFile =>
      (t.lineNum == |input| + 1 && t.charIndex == 0)
      || (1 <= t.lineNum <= |input| && t.charIndex == |input[t.lineNum - 1]|)
  }

  /** One step of the lexer emits a token that points at its source, and a later step still tracks the input. */
  lemma StepPointsAt(s: LexerState, input: seq<string>, multiline: bool)
    requires s.Valid() && Tracks(s, input) && LexStep(s, multiline).Emit?
    ensures PointsAt(LexStep(s, multiline).token, input)
    ensures LexStep(s, multiline).token.Type() != EndOfFile ==> Tracks(LexStep(s, multiline).next, input)
  {
    var t := LexStep(s, multiline).token;
    if t.Type() == Newline {
      assert s.line[s.index] == '\n';
      if s.rest == [] {
        assert s.lineNum == |input|;
      } else {
        assert s.rest[0] == input[s.lineNum];
        assert s.rest[1..] == input[s.lineNum + 1..];
      }
    }
    if t.Type() == Value {
      ScannedTextIsUnquotedStretch(s.line, s.index, false, "", s.index, multiline);
      var end := ScanFrom(s.line, s.index, false, "", s.index, multiline).end;
      assert UnquotedStretch(s.line, s.index, end, t.value);
    }
  }

  lemma {:induction false} LexFromPointsAt(s: LexerState, input: seq<string>, multiline: bool)
    requires s.Valid() && Tracks(s, input)
    ensures forall k :: 0 <= k < |LexFrom(s, multiline).tokens| ==> PointsAt(LexFrom(s, multiline).tokens[k], input)
    decreases |s.rest|, (if s.stopRequested then 0 else 1), |s.line| - s.index
  {
    var ts := LexFrom(s, multiline).tokens;
    match LexStep(s, multiline)
    case StepFailed(e) =>
    case Emit(t, n) =>
      StepPointsAt(s, input, multiline);
      if t.Type() == EndOfFile {
        assert ts == [t];
      } else {
        LexFromPointsAt(n, input, multiline);
        var rs := LexFrom(n, multiline).tokens;
        assert ts == [t] + rs;
        forall k | 0 <= k < |ts| ensures PointsAt(ts[k], input) {
          if k > 0 {
            assert ts[k] == rs[k - 1];
          }
        }
      }
  }

  /** The lexer over `input` starts on line 1 in step with the input. */
  lemma PrimedTracks(input: seq<string>)
    ensures Tracks(NextLine(Initial(input)), input)
  {
    if input != [] {
      assert input[1..] == input[1..];
    }
  }

  /** The whole stream over an input: well formed, quote-free values, counted lines, true positions. */
  lemma LexProperties(input: seq<string>, multiline: bool)
    ensures WellFormed(Lex(input, multiline))
    ensures var ts := Lex(input, multiline).tokens;
            && (forall k :: 0 <= k < |ts| && ts[k].CsvValueToken? ==> '"' !in ts[k].value)
            && (forall k :: 0 <= k < |ts| ==> ts[k].lineNum == 1 + NewlineCount(ts[..k + 1]))
            && (forall k :: 0 <= k < |ts| ==> PointsAt(ts[k], input))
  {
    var s := NextLine(Initial(input));
    assert Lex(input, multiline) == LexFrom(s, multiline);
    LexFromWellFormed(s, multiline);
    LexFromValuesUnquoted(s, multiline);
    LexFromLineNumbers(s, multiline);
    PrimedTracks(input);
    LexFromPointsAt(s, input, multiline);
  }

  /**
   * A line that has no newline ahead of the cursor ends the stream on that line: the lexer never
   * reads a later line, and the END_OF_FILE sits at the end of the line.
   */
  lemma {:induction false} LineWithoutNewlineEndsStream(s: LexerState, multiline: bool)
    requires s.Valid() && !s.stopRequested
    requires forall j :: s.index <= j < |s.line| ==> s.line[j] != '\n'
    ensures var r := LexFrom(s, multiline);
            && (forall k :: 0 <= k < |r.tokens| ==> r.tokens[k].lineNum == s.lineNum)
            && (r.failure.None? ==> r.tokens[|r.tokens| - 1] == CsvToken(EndOfFile, s.lineNum, |s.line|))
    decreases |s.line| - s.index
  {
    var r := LexFrom(s, multiline);
    match LexStep(s, multiline)
    case StepFailed(e) =>
    case Emit(t, n) =>
      if t.Type() == EndOfFile {
        assert r.tokens == [t];
      } else {
        LineWithoutNewlineEndsStream(n, multiline);
        assert r.tokens == [t] + LexFrom(n, multiline).tokens;
        assert forall k :: 1 <= k < |r.tokens| ==> r.tokens[k] == LexFrom(n, multiline).tokens[k - 1];
      }
  }
}
