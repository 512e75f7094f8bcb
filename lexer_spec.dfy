/**
 * The behaviour of the lexer (lexing/lexer.py) as functions on its state: one step of the
 * `lex` loop, the value-scanning loop of `_create_value_token`, and the whole token stream up
 * to the first END_OF_FILE, with the properties the lexer promises proved about them.
 */
module LexerSpec {
  import opened Wrappers
  import opened Tokens
  import opened Errors

  /** The characters of `s` other than the double quote, in order. */
  function Unquoted(s: string): string {
    if s == [] then [] else (if s[0] == '"' then [] else [s[0]]) + Unquoted(s[1..])
  }

  /** The outcome of scanning one value: its text and the index just after it, or a failure. */
  datatype Scan = Scanned(text: string, end: nat) | ScanFailed(error: CsvError)

  /**
   * The loop of `_create_value_token` from index `i` of `line`, with the quote flag `inString`
   * and the text gathered so far in `buf`; `start` is the index the value began at.
   */
  function ScanFrom(line: string, i: nat, inString: bool, buf: string, start: nat, multiline: bool): (r: Scan)
    requires i <= |line|
    ensures r.Scanned? ==> i <= r.end <= |line|
    ensures r.Scanned? && i < |line| && line[i] != '\n' && (inString || line[i] != ',') ==> i < r.end
    ensures r.ScanFailed? ==> r.error.IsLexerError()
    decreases |line| - i
  {
    if i < |line| && line[i] == '"' then
      if inString then Scanned(buf, i + 1) else ScanFrom(line, i + 1, true, buf, start, multiline)
    else if i < |line| && line[i] == '\n' then
      if inString && !multiline then ScanFailed(UnterminatedString(start)) else Scanned(buf, i)
    else if !inString && (i == |line| || line[i] == ',') then
      Scanned(buf, i)
    else if i == |line| then
      ScanFailed(NoneConcatenation)
    else
      ScanFrom(line, i + 1, inString, buf + [line[i]], start, multiline)
  }

  /** The fields of a `CsvLexer`: `rest` is what the input iterator has not yet handed out. */
  datatype LexerState = LexerState(line: string, index: nat, lineNum: int, stopRequested: bool, rest: seq<string>)
  {
    predicate Valid() {
      index <= |line|
    }
  }

  /** A freshly constructed lexer. */
  function Initial(input: seq<string>): LexerState {
    LexerState("", 0, 0, false, input)
  }

  /** `_advance_line` on a state: the next input line, or the stop flag when there is none. */
  function NextLine(s: LexerState): (n: LexerState)
    ensures n.Valid() && n.index == 0 && n.lineNum == s.lineNum + 1
  {
    if |s.rest| == 0 then s.(stopRequested := true, lineNum := s.lineNum + 1, index := 0)
    else s.(line := s.rest[0], rest := s.rest[1..], lineNum := s.lineNum + 1, index := 0)
  }

  /** The termination order of the token loop: fewer lines left, then stopped, then fewer characters left. */
  predicate Below(n: LexerState, s: LexerState)
    requires n.Valid() && s.Valid()
  {
    |n.rest| < |s.rest|
    || (|n.rest| == |s.rest| && !s.stopRequested && n.stopRequested)
    || (|n.rest| == |s.rest| && n.stopRequested == s.stopRequested && |n.line| - n.index < |s.line| - s.index)
  }

  /** One pass of the `while True` loop of `lex`: the token it yields and the state after it. */
  datatype Step = Emit(token: Token, next: LexerState) | StepFailed(error: CsvError)

  function LexStep(s: LexerState, multiline: bool): (r: Step)
    requires s.Valid()
    ensures r.Emit? ==> r.next.Valid()
    ensures r.Emit? && r.token.Type() != EndOfFile ==> Below(r.next, s)
  {
    if s.stopRequested || s.index == |s.line| then
      Emit(CsvToken(EndOfFile, s.lineNum, s.index), s)
    else if s.line[s.index] == ',' then
      Emit(CsvToken(Comma, s.lineNum, s.index + 1), s.(index := s.index + 1))
    else if s.line[s.index] == '\n' then
      var n := NextLine(s);
      Emit(CsvToken(Newline, n.lineNum, n.index), n)
    else
      match ScanFrom(s.line, s.index, false, "", s.index, multiline)
      case Scanned(text, end) => Emit(CsvValueToken(text, s.lineNum, s.index + 1), s.(index := end))
      case ScanFailed(e) => StepFailed(e)
  }

  /** The tokens of a stream up to and including the first END_OF_FILE, or up to a lexer failure. */
  datatype LexResult = LexResult(tokens: seq<Token>, failure: Option<CsvError>)

  /** The token stream from state `s` on. */
  function LexFrom(s: LexerState, multiline: bool): LexResult
    requires s.Valid()
    decreases |s.rest|, (if s.stopRequested then 0 else 1), |s.line| - s.index
  {
    match LexStep(s, multiline)
    case StepFailed(e) => LexResult([], Some(e))
    case Emit(t, n) =>
      if t.Type() == EndOfFile then LexResult([t], None)
      else var r := LexFrom(n, multiline); LexResult([t] + r.tokens, r.failure)
  }

  /** The stream `lex` produces over the input lines: it first loads line 1. */
  function Lex(input: seq<string>, multiline: bool): LexResult {
    LexFrom(NextLine(Initial(input)), multiline)
  }

  /** The tokens `ts` followed by the stream `r`. */
  function Prepend(ts: seq<Token>, r: LexResult): LexResult {
    LexResult(ts + r.tokens, r.failure)
  }

  lemma PrependAssociative(a: seq<Token>, b: seq<Token>, r: LexResult)
    ensures Prepend(a + b, r) == Prepend(a, Prepend(b, r))
  {
    assert a + b + r.tokens == a + (b + r.tokens);
  }

  /** A step that yields a token other than END_OF_FILE is followed by the stream of the next state. */
  lemma LexFromUnfold(s: LexerState, multiline: bool)
    requires s.Valid() && LexStep(s, multiline).Emit? && LexStep(s, multiline).token.Type() != EndOfFile
    ensures LexFrom(s, multiline) == Prepend([LexStep(s, multiline).token], LexFrom(LexStep(s, multiline).next, multiline))
  {
  }
}
