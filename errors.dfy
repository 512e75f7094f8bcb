/**
 * The conditions the pipeline raises (error.py, src/parsing/parser_error.py,
 * src/lexing/lexer_error.py and the validator's error class), and the bad-line policy.
 * An error is modelled as its kind and its position; the message text is left out. The constructors
 * of `CsvParserError` and `CsvValidatorError` crash, which `ParserAsWritten` and `ValidatorAsWritten`
 * model; the rest of the model builds the errors as intended.
 */
module Errors {
  import opened Wrappers
  import opened Tokens

  /** The policy of the parser and the validator towards a bad line. */
  datatype BadLineMode = RaiseError | Warn

  /** The messages of `CsvParserError`. */
  datatype ParserErrorKind = EmptyValue | TooManyCommas | CouldNotGetColumnType

  /** The messages of `CsvValidatorError`, with the data they quote. */
  datatype ValidatorErrorKind =
    | WrongTypeFormat(value: string, pattern: string)
    | UnknownColumnType(columnType: string)

  datatype CsvError =
      /** `CsvLexerError`: a quoted span reached a newline; carries the 0-based start index. */
    | UnterminatedString(position: int)
      /** Not a `CsvError` in the source: the `TypeError` raised when the lexer appends `None`
          to its buffer because a quoted span reached the end of a line that has no newline. */
    | NoneConcatenation
      /** `CsvParserError`; the token is `None` when a column lookup fails at the first token pulled,
          which has no previous token to blame. */
    | ParserError(kind: ParserErrorKind, token: Option<Token>)
      /** `CsvValidatorError`, positioned at the value's token. */
    | ValidatorError(vkind: ValidatorErrorKind, vtoken: Token)
  {
    /** Raised by the lexer rather than by a `_handle_error`. */
    predicate IsLexerError() {
      UnterminatedString? || NoneConcatenation?
    }
  }
}
