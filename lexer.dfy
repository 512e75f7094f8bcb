/**
 * `CsvLexer` (lexing/lexer.py): a cursor over the input lines that yields one token per step.
 * The input iterator is the sequence `input` of lines it has not handed out yet.
 */
module Lexer {
  import opened Wrappers
  import opened Tokens
  import opened Errors
  import opened LexerSpec

  class CsvLexer {
    var input: seq<string>
    var lineNum: int
    var line: string
    var index: int
    const allowMultilineStrings: bool
    var stopRequested: bool

    /** The cursor never passes the end of the current line. */
    ghost predicate Valid()
      reads this
    {
      0 <= index <= |line|
    }

    /** The lexer's fields as a state value. */
    function State(): (s: LexerState)
      reads this
      requires Valid()
      ensures s.Valid()
    {
      LexerState(line, index, lineNum, stopRequested, input)
    }

    constructor (input: seq<string>, allowMultilineStrings: bool)
      ensures Valid() && State() == Initial(input)
      ensures this.allowMultilineStrings == allowMultilineStrings
    {
      this.input := input;
      lineNum := 0;
      line := "";
      index := 0;
      this.allowMultilineStrings := allowMultilineStrings;
      stopRequested := false;
    }

    /** `_advance_line`: load the next line, or request a stop when the input is exhausted. */
    method AdvanceLine()
      requires Valid()
      modifies this
      ensures Valid() && State() == NextLine(old(State()))
    {
      if |input| == 0 {
        stopRequested := true;
      } else {
        line := input[0];
        input := input[1..];
      }
      lineNum := lineNum + 1;
      index := 0;
    }

    /** `_advance_char`; every caller has just read a character at `index`. */
    method AdvanceChar()
      requires Valid() && index < |line|
      modifies this
      ensures Valid() && State() == old(State()).(index := old(index) + 1)
    {
      index := index + 1;
    }

    /** `_get_current_char`: `None` once the cursor is at the end of the line. */
    function GetCurrentChar(): (c: Option<char>)
      reads this
      requires Valid()
      ensures c.Some? <==> index < |line|
      ensures c.Some? ==> c.value == line[index]
    {
      if |line| > index then Some(line[index]) else None
    }

    /** `_create_value_token`: scan one value from the cursor, stripping quote characters. */
    method CreateValueToken() returns (r: Result<ValueToken, CsvError>)
      requires Valid()
      modifies this
      ensures Valid() && line == old(line) && lineNum == old(lineNum)
      ensures input == old(input) && stopRequested == old(stopRequested)
      ensures var scan := ScanFrom(old(line), old(index), false, "", old(index), allowMultilineStrings);
              && (scan.Scanned? ==> r == Success(CsvValueToken(scan.text, lineNum, old(index) + 1)) && index == scan.end)
              && (scan.ScanFailed? ==> r == Failure(scan.error))
    {
      var startIndex := index;
      var strBuf := "";
      var inString := false;
      while true
        invariant Valid() && startIndex <= index
        invariant line == old(line) && lineNum == old(lineNum)
        invariant input == old(input) && stopRequested == old(stopRequested)
        invariant ScanFrom(line, index, inString, strBuf, startIndex, allowMultilineStrings)
                  == ScanFrom(line, startIndex, false, "", startIndex, allowMultilineStrings)
        decreases |line| - index
      {
        var c := GetCurrentChar();
        if c == Some('"') {
          if inString {
            AdvanceChar();
            break;
          }
          inString := true;
          AdvanceChar();
          continue;
        }

        if c == Some('\n') {
          if inString && !allowMultilineStrings {
            return Failure(UnterminatedString(startIndex));
          }
          break;
        }

        if !inString && (c == Some(',') || c == None) {
          break;
        }

        if c == None {
          // `str_buf += None` raises a TypeError
          return Failure(NoneConcatenation);
        }
        strBuf := strBuf + [c.value];
        AdvanceChar();
      }
      return Success(CsvValueToken(strBuf, lineNum, startIndex + 1));
    }

    /**
     * `lex`: prime the first line, then yield tokens. The stream is followed up to its first
     * END_OF_FILE, where the parser stops pulling.
     */
    method Lex() returns (result: LexResult)
      requires Valid()
      modifies this
      ensures result == LexFrom(NextLine(old(State())), allowMultilineStrings)
    {
      AdvanceLine();
      var tokens: seq<Token> := [];
      ghost var total := LexFrom(State(), allowMultilineStrings);
      while true
        invariant Valid()
        invariant total == Prepend(tokens, LexFrom(State(), allowMultilineStrings))
        decreases |input|, (if stopRequested then 0 else 1), |line| - index
      {
        ghost var before := State();
        if stopRequested {
          tokens := tokens + [CsvToken(EndOfFile, lineNum, index)];
          return LexResult(tokens, None);
        }

        var c := GetCurrentChar();
        var token: Token;
        if c == Some(',') {
          AdvanceChar();
          token := CsvToken(Comma, lineNum, index);
        } else if c == Some('\n') {
          AdvanceLine();
          token := CsvToken(Newline, lineNum, index);
        } else if c == None {
          tokens := tokens + [CsvToken(EndOfFile, lineNum, index)];
          return LexResult(tokens, None);
        } else {
          var v := CreateValueToken();
          if v.Failure? {
            return LexResult(tokens, Some(v.error));
          }
          token := v.value;
        }
        assert LexStep(before, allowMultilineStrings) == Emit(token, State());
        LexFromUnfold(before, allowMultilineStrings);
        PrependAssociative(tokens, [token], LexFrom(State(), allowMultilineStrings));
        tokens := tokens + [token];
      }
    }
  }
}
